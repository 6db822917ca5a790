/** Numbers with thousands separators, written backwards into a byte buffer. */
module Formats {
  import opened Decimal

  const TWO_63: int := 0x8000_0000_0000_0000
  const TWO_64: int := 0x1_0000_0000_0000_0000
  const MAX_LENGTH: nat := 26
  const SMALL: int := 100000

  /** The digits with a comma before every complete group of three from the right. */
  function Separated(s: string): string {
    if |s| <= 3 then s else Separated(s[..|s| - 3]) + "," + s[|s| - 3..]
  }

  function WithoutCommas(s: string): string {
    if s == "" then "" else WithoutCommas(s[..|s| - 1]) + if s[|s| - 1] == ',' then "" else [s[|s| - 1]]
  }

  function Abs(n: int): nat { if n < 0 then -n else n }

  function Signed(neg: bool, s: string): string { if neg then ['-'] + s else s }

  /** The decimal text of an integer. */
  function Text(n: int): string { Signed(n < 0, Dec(Abs(n))) }

  /** What the formatter writes for an integer: small numbers plainly, all others with separators. */
  function Formatted(n: int): string {
    if Abs(n) < SMALL then Text(n) else Signed(n < 0, Separated(Dec(Abs(n))))
  }

  // ----- Properties of the separated form -----

  lemma {:induction false} WithoutCommasConcat(a: string, b: string)
    ensures WithoutCommas(a + b) == WithoutCommas(a) + WithoutCommas(b)
    decreases |b|
  {
    if b == "" {
      assert a + b == a;
    } else {
      WithoutCommasConcat(a, b[..|b| - 1]);
      assert (a + b)[..|a + b| - 1] == a + b[..|b| - 1];
    }
  }

  lemma {:induction false} NoCommasToRemove(s: string)
    requires AllDigits(s)
    ensures WithoutCommas(s) == s
  {
    if s != "" {
      NoCommasToRemove(s[..|s| - 1]);
      assert s == s[..|s| - 1] + [s[|s| - 1]];
    }
  }

  lemma {:induction false} SeparatedGroup(a: string, b: string)
    requires a != "" && |b| == 3
    ensures Separated(a + b) == Separated(a) + "," + b
  {
    assert (a + b)[..|a + b| - 3] == a && (a + b)[|a + b| - 3..] == b;
  }

  /** Removing the commas gives the digits back. */
  lemma {:induction false} SeparatedDigits(s: string)
    requires AllDigits(s)
    ensures WithoutCommas(Separated(s)) == s
  {
    if |s| <= 3 {
      NoCommasToRemove(s);
    } else {
      var a, b := s[..|s| - 3], s[|s| - 3..];
      assert s == a + b;
      SeparatedDigits(a);
      NoCommasToRemove(b);
      GroupDigits(a, b);
    }
  }

  lemma {:induction false} GroupDigits(a: string, b: string)
    requires a != "" && |b| == 3 && WithoutCommas(Separated(a)) == a && WithoutCommas(b) == b
    ensures WithoutCommas(Separated(a + b)) == a + b
  {
    SeparatedGroup(a, b);
    WithoutCommasConcat(Separated(a) + ",", b);
    WithoutCommasConcat(Separated(a), ",");
    NoComma();
    assert a + "" == a;
  }

  lemma {:induction false} NoComma()
    ensures WithoutCommas(",") == ""
  {
    assert WithoutCommas(",") == WithoutCommas("") + "";
  }

  /** There is one comma for each complete group of three that has a digit before it. */
  lemma {:induction false} SeparatedLength(s: string)
    requires s != ""
    ensures |Separated(s)| == |s| + (|s| - 1) / 3
  {
    if |s| > 3 {
      SeparatedLength(s[..|s| - 3]);
    }
  }

  /** A separated numeral has a comma at exactly every fourth place from the right, none of them leading. */
  lemma {:induction false} SeparatedPlaces(s: string, k: nat)
    requires AllDigits(s) && s != "" && k < |Separated(s)|
    ensures Separated(s)[|Separated(s)| - 1 - k] == ',' <==> k % 4 == 3
    ensures Separated(s)[0] == s[0]
  {
    if |s| > 3 {
      var a, b := s[..|s| - 3], s[|s| - 3..];
      var front := Separated(a);
      SeparatedLength(a);
      SeparatedPlaces(a, if k >= 4 then k - 4 else 0);
      GroupPlaces(front, b, k);
    }
  }

  lemma {:induction false} GroupPlaces(front: string, b: string, k: nat)
    requires |b| == 3 && AllDigits(b) && front != "" && k < |front| + 4
    ensures var text := front + "," + b;
            && |text| == |front| + 4 && text[0] == front[0]
            && if k >= 4 then text[|text| - 1 - k] == front[|front| - 1 - (k - 4)]
               else text[|text| - 1 - k] == ',' <==> k == 3
  {
  }

  /** The separated form of c and the digits s, given that of s. */
  function WithDigit(c: char, s: string, separated: string): string {
    if |s| > 0 && |s| % 3 == 0 then [c] + ([','] + separated) else [c] + separated
  }

  lemma {:induction false} Regroup(c: char, a: string, b: string, separated: string)
    requires |b| == 3 && a != ""
    ensures WithDigit(c, a, separated) + "," + b == WithDigit(c, a + b, separated + "," + b)
  {
  }

  lemma {:induction false} SeparatedStep(c: char, a: string, b: string)
    requires a != "" && |b| == 3
    ensures Separated([c] + (a + b)) == Separated([c] + a) + "," + b
    ensures Separated(a + b) == Separated(a) + "," + b
  {
    assert [c] + (a + b) == ([c] + a) + b;
    SeparatedGroup([c] + a, b);
    SeparatedGroup(a, b);
  }

  lemma {:induction false} SeparatedFour(c: char, s: string)
    requires |s| == 3
    ensures Separated([c] + s) == WithDigit(c, s, Separated(s))
  {
    SeparatedGroup([c], s);
    assert [c] + "," + s == [c] + ([','] + s);
  }

  /** One more digit on the left: with a comma when the digits so far are complete groups. */
  lemma {:induction false} SeparatedCons(c: char, s: string)
    ensures Separated([c] + s) == WithDigit(c, s, Separated(s))
    decreases |s|
  {
    if |s| == 3 {
      SeparatedFour(c, s);
    } else if |s| > 3 {
      SeparatedConsMore(c, s[..|s| - 3], s[|s| - 3..]);
      assert s == s[..|s| - 3] + s[|s| - 3..];
    }
  }

  lemma {:induction false} SeparatedConsMore(c: char, a: string, b: string)
    requires a != "" && |b| == 3
    ensures Separated([c] + (a + b)) == WithDigit(c, a + b, Separated(a + b))
    decreases |a| + 1
  {
    SeparatedCons(c, a);
    SeparatedStep(c, a, b);
    Regroup(c, a, b, Separated(a));
  }

  /** How many digits have been written since the last separator, once k digits have been written. */
  function SinceComma(k: nat): (comma: nat)
    ensures comma == 3 <==> k > 0 && k % 3 == 0
    ensures comma == 0 <==> k == 0
  {
    if k == 0 then 0 else 1 + (k - 1) % 3
  }

  lemma SinceCommaNext(k: nat)
    ensures SinceComma(k + 1) == if SinceComma(k) == 3 then 1 else SinceComma(k) + 1
  {
  }

  /** Removing the commas from what is written gives the decimal numeral. */
  lemma FormattedNumeral(n: int)
    ensures WithoutCommas(Formatted(n)) == Text(n)
  {
    var digits := Dec(Abs(n));
    SeparatedDigits(digits);
    NoCommasToRemove(digits);
    SignKept(n < 0, digits);
    SignKept(n < 0, Separated(digits));
  }

  lemma SignKept(neg: bool, s: string)
    ensures WithoutCommas(Signed(neg, s)) == Signed(neg, WithoutCommas(s))
  {
    if neg {
      WithoutCommasConcat(['-'], s);
      assert WithoutCommas(['-']) == WithoutCommas([]) + ['-'] == ['-'];
    }
  }

  /** From 100000 on, the written form has a comma at exactly every fourth place from the right, after the sign. */
  lemma FormattedPlaces(n: int, k: nat)
    requires Abs(n) >= 100000 && k < |Formatted(n)| - if n < 0 then 1 else 0
    ensures Formatted(n)[|Formatted(n)| - 1 - k] == ',' <==> k % 4 == 3
    ensures IsDigit(Formatted(n)[if n < 0 then 1 else 0]) && (n < 0 ==> Formatted(n)[0] == '-')
  {
    var digits := Dec(Abs(n));
    SeparatedLength(digits);
    SeparatedPlaces(digits, k);
  }

  /** Below 100000 nothing is separated. */
  lemma FormattedSmall(n: int)
    requires Abs(n) < 100000
    ensures ',' !in Formatted(n)
  {
  }

  // ----- The formatter -----

  /** What has been written backwards after the digits done, comma of them since the last separator; a separator is
    written as soon as three digits are complete and more are to come. */
  ghost predicate Written(done: string, comma: nat, written: string) {
    if comma > 0 || done == "" then comma == SinceComma(|done|) && written == Separated(done)
    else |done| % 3 == 0 && written == [','] + Separated(done)
  }

  lemma WriteDigit(c: char, done: string, comma: nat, written: string)
    requires Written(done, comma, written) && comma < 3
    ensures Written([c] + done, comma + 1, [c] + written)
  {
    SeparatedCons(c, done);
    SinceCommaNext(|done|);
  }

  /** How much has been written while digits are still to come. */
  lemma WrittenLength(done: string, comma: nat, written: string)
    requires Written(done, comma, written)
    ensures |written| <= |done| + |done| / 3
  {
    if done != "" {
      SeparatedLength(done);
    }
  }

  /** Appends a 64-bit number, negated if asked for. No place outside the 26-byte buffer is ever written. */
  method AppendUint64(dst: string, n: nat, neg: bool) returns (r: string)
    requires n < TWO_64 && (neg ==> 0 < n <= TWO_63)
    ensures r == dst + Formatted(if neg then 0 - n else n)
  {
    if n < SMALL {
      return dst + Signed(neg, Dec(n));
    }
    Pow10Values();
    DecLength(n, if neg then 19 else 20);
    var text := SeparateUint64(n, neg);
    r := dst + text;
  }

  /** The buffer holds what has been written in its last places, the next one to be written being i. */
  ghost predicate Holds(buf: array<char>, i: int, written: string)
    reads buf
  {
    -1 <= i < buf.Length && buf[i + 1..] == written
  }

  /** Writes a character at place i of the buffer and moves one place to the left. */
  method Push(buf: array<char>, i: int, c: char, ghost written: string) returns (i': int)
    requires Holds(buf, i, written) && |written| < buf.Length
    modifies buf
    ensures Holds(buf, i', [c] + written)
  {
    buf[i] := c;
    i' := i - 1;
    assert buf[i..] == [c] + written;
  }

  method SeparateUint64(n: nat, neg: bool) returns (text: string)
    requires 0 < n && |Dec(n)| <= if neg then 19 else 20
    ensures text == Signed(neg, Separated(Dec(n)))
  {
    var out := new char[MAX_LENGTH](_ => ' ');
    var i: int, comma, m := MAX_LENGTH - 1, 0, n;
    ghost var done, written := "", "";
    while m > 0
      invariant Rest(m) + done == Dec(n) && comma <= 3 && Written(done, comma, written)
      invariant Holds(out, i, written)
      invariant m == 0 ==> comma > 0
      decreases m, comma
    {
      WrittenLength(done, comma, written);
      if comma == 3 {
        comma := 0;
        i := Push(out, i, ',', written);
        written := [','] + written;
      } else {
        var c := '0' + (m % 10) as char;
        RestGoesOn(m, c, done);
        WriteDigit(c, done, comma, written);
        comma := comma + 1;
        i := Push(out, i, c, written);
        done, written := [c] + done, [c] + written;
        m := m / 10;
      }
    }
    assert Rest(m) + done == done;
    SeparatedLength(done);
    if neg {
      i := Push(out, i, '-', written);
    }
    text := out[i + 1..];
  }

  lemma RestGoesOn(m: nat, c: char, done: string)
    requires m > 0 && c == DigitChar(m % 10)
    ensures Rest(m / 10) + ([c] + done) == Rest(m) + done
  {
    RestStep(m);
    assert Rest(m / 10) + ([c] + done) == (Rest(m / 10) + [c]) + done;
  }

  /** Appends a signed 64-bit number; negating the smallest one wraps around to itself. */
  method AppendInt64(dst: string, n: int) returns (r: string)
    requires -TWO_63 <= n < TWO_63
    ensures r == dst + Formatted(n)
  {
    if n < 0 {
      var m := (-n) % TWO_64;
      assert m == -n;
      r := AppendUint64(dst, m, true);
    } else {
      r := AppendUint64(dst, n, false);
    }
  }

  /** Appends an integer of any size. The buffer holds a third more than the text, and is never left. */
  method AppendBigInt(dst: string, n: int) returns (r: string)
    ensures r == dst + Formatted(n)
  {
    if 0 <= n < TWO_64 {
      r := AppendUint64(dst, n, false);
      return;
    }
    if -TWO_63 <= n < TWO_63 {
      r := AppendInt64(dst, n);
      return;
    }
    var text := SeparateText(Text(n), Dec(Abs(n)), n < 0);
    r := dst + text;
  }

  /** What has been written for the digits from place k on, or with the sign when k is negative. */
  ghost predicate Back(digits: string, k: int, comma: nat, written: string) {
    if k < 0 then written == ['-'] + Separated(digits)
    else k <= |digits| && written == Separated(digits[k..]) && comma == SinceComma(|digits| - k)
  }

  method SeparateText(text: string, ghost digits: string, ghost neg: bool) returns (r: string)
    requires digits != "" && AllDigits(digits) && text == Signed(neg, digits)
    ensures r == Signed(neg, Separated(digits))
  {
    var buf := new char[|text| + |text| / 3](_ => ' ');
    var comma, i: int, j := 0, buf.Length - 1, |text| - 1;
    ghost var sign, written := if neg then 1 else 0, "";
    while j >= 0
      invariant -1 <= j < |text| && Holds(buf, i, written)
      invariant Back(digits, j + 1 - sign, comma, written)
    {
      SignAt(text, digits, neg, j);
      if text[j] == '-' {
        i, written := PutSign(buf, i, digits, comma, written);
      } else {
        i, comma, written := PutNext(buf, i, text[j], |text|, digits, j - sign, comma, written);
      }
      j := j - 1;
    }
    AllBack(digits, neg, comma, written);
    r := buf[i + 1..];
  }

  lemma {:induction false} AllBack(digits: string, neg: bool, comma: nat, written: string)
    requires Back(digits, if neg then -1 else 0, comma, written)
    ensures written == Signed(neg, Separated(digits))
  {
    assert digits[0..] == digits;
  }

  lemma {:induction false} SignAt(text: string, digits: string, neg: bool, j: nat)
    requires AllDigits(digits) && text == Signed(neg, digits) && j < |text|
    ensures text[j] == '-' <==> neg && j == 0
    ensures text[j] != '-' ==> j >= (if neg then 1 else 0) && text[j] == digits[j - if neg then 1 else 0]
  {
  }

  /** Writes the sign, which comes before all digits. */
  method PutSign(buf: array<char>, i: int, ghost digits: string, ghost comma: nat, ghost written: string)
    returns (i': int, ghost written': string)
    requires Back(digits, 0, comma, written) && Holds(buf, i, written)
    requires digits != "" && buf.Length == |digits| + 1 + (|digits| + 1) / 3
    modifies buf
    ensures Back(digits, -1, comma, written') && Holds(buf, i', written')
  {
    AllBack(digits, false, comma, written);
    SeparatedLength(digits);
    i' := Push(buf, i, '-', written);
    written' := ['-'] + written;
  }

  /** Writes the digit at place k. */
  method PutNext(buf: array<char>, i: int, c: char, ghost length: nat, ghost digits: string, ghost k: nat, comma: nat,
                 ghost written: string) returns (i': int, comma': nat, ghost written': string)
    requires Back(digits, k + 1, comma, written) && Holds(buf, i, written) && c == digits[k]
    requires |digits| <= length && buf.Length == length + length / 3
    modifies buf
    ensures Back(digits, k, comma', written') && Holds(buf, i', written')
  {
    DropOne(digits, k);
    FitsBuffer(digits, digits[k..], length);
    i', comma' := PutDigit(buf, i, comma, c, digits[k + 1..]);
    written' := Separated(digits[k..]);
  }

  lemma {:induction false} DropOne(s: string, k: nat)
    requires k < |s|
    ensures s[k..] == [s[k]] + s[k + 1..]
  {
  }

  lemma FitsBuffer(digits: string, part: string, length: nat)
    requires part != "" && |part| <= |digits| <= length
    ensures |Separated(part)| <= length + length / 3
  {
    SeparatedLength(part);
  }

  /** Writes one more digit to the left, after a separator when three digits are complete. */
  method PutDigit(buf: array<char>, i: int, comma: nat, c: char, ghost done: string) returns (i': int, comma': nat)
    requires Holds(buf, i, Separated(done)) && comma == SinceComma(|done|)
    requires |Separated([c] + done)| <= buf.Length
    modifies buf
    ensures Holds(buf, i', Separated([c] + done)) && comma' == SinceComma(|done| + 1)
  {
    SeparatedCons(c, done);
    SinceCommaNext(|done|);
    i', comma' := i, comma;
    ghost var written := Separated(done);
    if comma' == 3 {
      i' := Push(buf, i', ',', written);
      written := [','] + written;
      comma' := 0;
    }
    i' := Push(buf, i', c, written);
    comma' := comma' + 1;
  }
}
