/** Hierarchical derivation paths: parsing user input and printing the canonical form. */
module DerivationPaths {
  import opened Wrappers
  import opened Decimal

  const HARDENED: nat := 0x8000_0000
  const MAX_UINT32: nat := 0xFFFF_FFFF

  type Path = seq<nat>

  const DEFAULT_ROOT: Path := [HARDENED + 44, HARDENED + 60, HARDENED, 0]

  datatype ParseError = AmbiguousPath | EmptyPath | InvalidComponent | OutOfRange

  // ----- The string functions the parser uses -----

  predicate IsSpace(c: char) {
    || '\t' <= c <= '\r' || c == ' ' || c == '\U{85}' || c == '\U{A0}' || c == '\U{1680}'
       || '\U{2000}' <= c <= '\U{200A}'
    || c == '\U{2028}' || c == '\U{2029}' || c == '\U{202F}' || c == '\U{205F}' || c == '\U{3000}'
  }

  function TrimLeft(s: string): string {
    if s != "" && IsSpace(s[0]) then TrimLeft(s[1..]) else s
  }

  function TrimRight(s: string): string {
    if s != "" && IsSpace(s[|s| - 1]) then TrimRight(s[..|s| - 1]) else s
  }

  function TrimSpace(s: string): string {
    TrimRight(TrimLeft(s))
  }

  /** The parts between the slashes; always at least one. */
  function Split(s: string): (parts: seq<string>)
    ensures |parts| > 0
  {
    if s == "" then [""]
    else
      var rest := Split(s[1..]);
      if s[0] == '/' then [""] + rest else [[s[0]] + rest[0]] + rest[1..]
  }

  /** The value of a digit in any base up to 36. */
  function DigitValue(c: char): nat {
    if '0' <= c <= '9' then (c - '0') as nat
    else if 'a' <= c <= 'z' then (c - 'a') as nat + 10
    else if 'A' <= c <= 'Z' then (c - 'A') as nat + 10
    else 36
  }

  /** Reads digits and separating underscores to the end; an underscore must follow a digit or a base prefix and must
    not be last, and there must be a digit. */
  function ScanDigits(s: string, base: nat, afterDigit: bool, seen: bool, value: nat): Option<nat> {
    if s == "" then if afterDigit && seen then Some(value) else None
    else if s[0] == '_' then if afterDigit then ScanDigits(s[1..], base, false, seen, value) else None
    else if DigitValue(s[0]) < base then ScanDigits(s[1..], base, true, true, value * base + DigitValue(s[0]))
    else None
  }

  /** An unsigned number whose base is given by its prefix: 0b, 0o or 0, 0x, else ten. */
  function ScanNumber(s: string): Option<nat> {
    if s == "0" then Some(0)
    else if s != "" && s[0] == '0' then
      if s[1] in "bB" then ScanDigits(s[2..], 2, true, false, 0)
      else if s[1] in "oO" then ScanDigits(s[2..], 8, true, false, 0)
      else if s[1] in "xX" then ScanDigits(s[2..], 16, true, false, 0)
      else ScanDigits(s[1..], 8, true, false, 0)
    else ScanDigits(s, 10, false, false, 0)
  }

  /** A number with an optional sign. */
  function SetString(s: string): Option<int> {
    if s != "" && s[0] == '-' then
      match ScanNumber(s[1..]) case None => None case Some(n) => Some(0 - n)
    else
      match ScanNumber(if s != "" && s[0] == '+' then s[1..] else s) case None => None case Some(n) => Some(n)
  }

  // ----- Parsing -----

  /** One component: a number, with an apostrophe when hardened. */
  function ParseComponent(component: string): (r: Result<nat, ParseError>)
    ensures r.Ok? ==> r.value <= MAX_UINT32
  {
    var c := TrimSpace(component);
    var hardened := c != "" && c[|c| - 1] == '\'';
    var base := if hardened then HARDENED else 0;
    match SetString(if hardened then TrimSpace(c[..|c| - 1]) else c)
    case None => Err(InvalidComponent)
    case Some(n) => if n < 0 || n > MAX_UINT32 - base then Err(OutOfRange) else Ok(base + n)
  }

  /** All components in order; the first bad one decides the error. */
  function ParseComponents(components: seq<string>): (r: Result<Path, ParseError>)
    ensures r.Ok? ==> |r.value| == |components| && forall i | 0 <= i < |r.value| :: r.value[i] <= MAX_UINT32
  {
    if components == [] then Ok([])
    else
      match ParseComponent(components[0])
      case Err(e) => Err(e)
      case Ok(n) =>
        match ParseComponents(components[1..])
        case Err(e) => Err(e)
        case Ok(rest) => Ok([n] + rest)
  }

  /** A whole path: absolute after "m", else relative to the default root. */
  function Parsed(path: string): Result<Path, ParseError> {
    var components := Split(path);
    if TrimSpace(components[0]) == "" then Err(AmbiguousPath)
    else if TrimSpace(components[0]) == "m" then
      if |components| == 1 then Err(EmptyPath) else ParseComponents(components[1..])
    else
      match ParseComponents(components)
      case Err(e) => Err(e)
      case Ok(rest) => Ok(DEFAULT_ROOT + rest)
  }

  /** All components are accepted exactly when each is, with their values in order; else the first bad one decides. */
  lemma {:induction false} ComponentsExact(components: seq<string>)
    ensures ParseComponents(components).Ok? <==> forall i | 0 <= i < |components| :: ParseComponent(components[i]).Ok?
    ensures ParseComponents(components).Ok? ==>
              && |ParseComponents(components).value| == |components|
              && forall i | 0 <= i < |components| ::
                   ParseComponent(components[i]) == Ok(ParseComponents(components).value[i])
    ensures forall i | 0 <= i < |components| && ParseComponent(components[i]).Err? ::
              (forall j | 0 <= j < i :: ParseComponent(components[j]).Ok?) ==>
                ParseComponents(components) == Err(ParseComponent(components[i]).error)
  {
    if components != [] {
      var rest := components[1..];
      ComponentsExact(rest);
      assert forall i | 0 < i < |components| :: components[i] == rest[i - 1];
      forall i | 0 <= i < |components| && ParseComponent(components[i]).Err?
                 && forall j | 0 <= j < i :: ParseComponent(components[j]).Ok?
        ensures ParseComponents(components) == Err(ParseComponent(components[i]).error)
      {
        if i > 0 {
          assert ParseComponent(components[0]).Ok? && components[i] == rest[i - 1];
          assert forall j | 0 <= j < i - 1 :: rest[j] == components[j + 1];
        }
      }
    }
  }

  /** Parsing one more component at the end. */
  lemma {:induction false} ParseComponentsAppend(a: seq<string>, c: string)
    ensures ParseComponents(a + [c]) ==
            match ParseComponents(a)
            case Err(e) => Err(e)
            case Ok(x) => match ParseComponent(c) case Err(e) => Err(e) case Ok(n) => Ok(x + [n])
    decreases |a|
  {
    var more := a + [c];
    if a == [] {
      assert more == [c] && more[1..] == [];
      if ParseComponent(c).Ok? {
        var n := ParseComponent(c).value;
        assert [n] + [] == [] + [n];
      }
    } else {
      assert more[0] == a[0] && more[1..] == a[1..] + [c];
      ParseComponentsAppend(a[1..], c);
      if ParseComponent(a[0]).Ok? && ParseComponents(a[1..]).Ok? && ParseComponent(c).Ok? {
        var m, x, n := ParseComponent(a[0]).value, ParseComponents(a[1..]).value, ParseComponent(c).value;
        assert [m] + (x + [n]) == ([m] + x) + [n];
      }
    }
  }

  /** A bad component makes every longer list fail with its error. */
  lemma {:induction false} ParseComponentsPrefix(components: seq<string>, i: nat)
    requires i <= |components| && ParseComponents(components[..i]).Err?
    ensures ParseComponents(components) == Err(ParseComponents(components[..i]).error)
    decreases |components|
  {
    if i > 0 && ParseComponent(components[0]).Ok? {
      assert components[..i][1..] == components[1..][..i - 1];
      ParseComponentsPrefix(components[1..], i - 1);
    }
  }

  lemma {:induction false} OneMore(components: seq<string>, i: nat)
    requires i < |components| && ParseComponents(components[..i]).Ok?
    ensures var c := ParseComponent(components[i]);
            ParseComponents(components[..i + 1]) ==
            if c.Err? then Err(c.error) else Ok(ParseComponents(components[..i]).value + [c.value])
  {
    assert components[..i + 1] == components[..i] + [components[i]];
    ParseComponentsAppend(components[..i], components[i]);
  }

  /** ParseDerivationPath. */
  method Parse(path: string) returns (r: Result<Path, ParseError>)
    ensures r == Parsed(path)
  {
    var result: Path := [];
    var components := Split(path);
    if TrimSpace(components[0]) == "" {
      return Err(AmbiguousPath);
    } else if TrimSpace(components[0]) == "m" {
      components := components[1..];
    } else {
      result := DEFAULT_ROOT;
    }
    if |components| == 0 {
      return Err(EmptyPath);
    }
    r := AppendComponents(result, components);
    assert r.Ok? && result == [] ==> result + ParseComponents(components).value == ParseComponents(components).value;
  }

  /** The loop of Parse. */
  method AppendComponents(root: Path, components: seq<string>) returns (r: Result<Path, ParseError>)
    ensures r == match ParseComponents(components) case Err(e) => Err(e) case Ok(rest) => Ok(root + rest)
  {
    var result := root;
    ghost var parsed := [];
    for i := 0 to |components|
      invariant ParseComponents(components[..i]) == Ok(parsed) && result == root + parsed
    {
      OneMore(components, i);
      var n := ParseComponent(components[i]);
      if n.Err? {
        ParseComponentsPrefix(components, i + 1);
        return Err(n.error);
      }
      assert root + parsed + [n.value] == root + (parsed + [n.value]);
      result := result + [n.value];
      parsed := parsed + [n.value];
    }
    assert components[..|components|] == components;
    return Ok(result);
  }

  // ----- Printing -----

  function Component(n: nat): string {
    if n >= HARDENED then Dec(n - HARDENED) + "'" else Dec(n)
  }

  function Tail(path: Path): string {
    if path == [] then "" else Tail(path[..|path| - 1]) + "/" + Component(path[|path| - 1])
  }

  /** DerivationPath.String. */
  method Print(path: Path) returns (result: string)
    ensures result == Printed(path)
  {
    result := "m";
    for i := 0 to |path|
      invariant result == Printed(path[..i])
    {
      var component, hardened := path[i], false;
      if component >= HARDENED {
        component := component - HARDENED;
        hardened := true;
      }
      result := result + "/" + Dec(component);
      if hardened {
        result := result + "'";
      }
      PrintedNext(path, i);
    }
    assert path[..|path|] == path;
  }

  function Printed(path: Path): string {
    "m" + Tail(path)
  }

  lemma {:induction false} PrintedNext(path: Path, i: nat)
    requires i < |path|
    ensures var text := Printed(path[..i]) + "/";
            Printed(path[..i + 1]) ==
            if path[i] >= HARDENED then text + Dec(path[i] - HARDENED) + "'" else text + Dec(path[i])
  {
    assert path[..i + 1][..i] == path[..i];
    Associate("m", Tail(path[..i]), "/", Component(path[i]));
    if path[i] >= HARDENED {
      Associate(Printed(path[..i]), "/", Dec(path[i] - HARDENED), "'");
    }
  }

  lemma Associate(a: string, b: string, c: string, d: string)
    ensures a + (b + c + d) == a + b + c + d
    ensures a + b + (c + d) == a + b + c + d
  {
  }

  // ----- Round trips -----

  /** No slash, no apostrophe, no space: what a printed number is made of. */
  lemma {:induction false} SplitNoSlash(a: string)
    requires '/' !in a
    ensures Split(a) == [a]
  {
    if a != "" {
      SplitNoSlash(a[1..]);
      assert [a[0]] + a[1..] == a;
    }
  }

  lemma {:induction false} SplitAtSlash(a: string, t: string)
    requires '/' !in a
    ensures Split(a + ("/" + t)) == [a] + Split(t)
    decreases |a|
  {
    if a == "" {
      assert a + ("/" + t) == "/" + t && ("/" + t)[1..] == t;
    } else {
      SplitAtSlash(a[1..], t);
      assert (a + ("/" + t))[1..] == a[1..] + ("/" + t);
      assert [a[0]] + a[1..] == a;
    }
  }

  function Components(path: Path): seq<string> {
    if path == [] then [] else [Component(path[0])] + Components(path[1..])
  }

  /** The printed tail, seen from the front. */
  lemma {:induction false} TailFront(path: Path)
    requires path != []
    ensures Tail(path) == "/" + (Component(path[0]) + Tail(path[1..]))
  {
    var last := |path| - 1;
    if last == 0 {
      assert path[..0] == [] && path[1..] == [];
      assert Tail(path) == "" + "/" + Component(path[0]);
    } else {
      var init, rest := path[..last], path[1..];
      TailFront(init);
      assert init[1..] == rest[..last - 1] && rest[last - 1] == path[last];
      Regroup(Component(path[0]), Tail(init[1..]), Component(path[last]));
    }
  }

  lemma {:induction false} Regroup(head: string, middle: string, end: string)
    ensures ("/" + (head + middle)) + "/" + end == "/" + (head + (middle + "/" + end))
  {
  }

  lemma ComponentChars(n: nat)
    ensures '/' !in Component(n)
  {
  }

  /** Splitting a printed path gives back its parts. */
  lemma {:induction false} SplitTail(a: string, path: Path)
    requires '/' !in a
    ensures Split(a + Tail(path)) == [a] + Components(path)
    decreases |path|
  {
    if path == [] {
      SplitNoSlash(a);
      assert a + "" == a && [a] + [] == [a];
    } else {
      TailFront(path);
      ComponentChars(path[0]);
      SplitAtSlash(a, Component(path[0]) + Tail(path[1..]));
      SplitTail(Component(path[0]), path[1..]);
    }
  }

  /** Scanning a decimal numeral reads its value. */
  lemma {:induction false} ScanDec(n: nat, t: string, afterDigit: bool, seen: bool)
    ensures ScanDigits(Dec(n) + t, 10, afterDigit, seen, 0) == ScanDigits(t, 10, true, true, n)
    decreases n
  {
    var d := [DigitChar(n % 10)];
    ScanDigit(n % 10, t, afterDigit || n >= 10, seen || n >= 10, n / 10);
    if n >= 10 {
      ScanDec(n / 10, d + t, afterDigit, seen);
      assert Dec(n) + t == Dec(n / 10) + (d + t);
    }
  }

  lemma {:induction false} ScanDigit(d: nat, t: string, afterDigit: bool, seen: bool, value: nat)
    requires d < 10
    ensures ScanDigits([DigitChar(d)] + t, 10, afterDigit, seen, value) ==
            ScanDigits(t, 10, true, true, value * 10 + d)
  {
    var s := [DigitChar(d)] + t;
    assert s[1..] == t && s[0] == DigitChar(d);
    DigitRoundTrip(d);
  }

  lemma NumeralRoundTrip(n: nat)
    ensures SetString(Dec(n)) == Some(n)
  {
    ScanDec(n, "", false, false);
    assert Dec(n) + "" == Dec(n);
    assert IsDigit(Dec(n)[0]);
    if Dec(n)[0] == '0' {
      assert Dec(0) == [DigitChar(0)] == "0";
    }
  }

  /** A string that neither starts nor ends with a space is its own trimming. */
  lemma NothingToTrim(s: string)
    requires s != "" && !IsSpace(s[0]) && !IsSpace(s[|s| - 1])
    ensures TrimSpace(s) == s
  {
  }

  lemma ComponentRoundTrip(n: nat)
    requires n <= MAX_UINT32
    ensures ParseComponent(Component(n)) == Ok(n)
  {
    var m := if n >= HARDENED then n - HARDENED else n;
    var digits := Dec(m);
    assert IsDigit(digits[0]) && IsDigit(digits[|digits| - 1]);
    NumeralRoundTrip(m);
    NothingToTrim(digits);
    NothingToTrim(Component(n));
    if n >= HARDENED {
      assert (digits + "'")[..|digits|] == digits;
    }
  }

  lemma {:induction false} ComponentsRoundTrip(path: Path)
    requires forall i | 0 <= i < |path| :: path[i] <= MAX_UINT32
    ensures ParseComponents(Components(path)) == Ok(path)
  {
    if path != [] {
      ComponentRoundTrip(path[0]);
      ComponentsRoundTrip(path[1..]);
      assert Components(path)[1..] == Components(path[1..]);
      assert [path[0]] + path[1..] == path;
    }
  }

  /** Parsing a printed path gives the path back, except for the empty path, which prints as "m" and does not parse. */
  lemma ParsePrinted(path: Path)
    requires forall i | 0 <= i < |path| :: path[i] <= MAX_UINT32
    ensures Parsed(Printed(path)) == Ok(path) <==> path != []
    ensures path == [] ==> Parsed(Printed(path)) == Err(EmptyPath)
  {
    SplitTail("m", path);
    ComponentsRoundTrip(path);
    NothingToTrim("m");
    assert ([("m")] + Components(path))[1..] == Components(path);
    if path != [] {
      assert |Components(path)| > 0;
    }
  }

  /** Whatever is accepted parses to a non-empty path of 32-bit components, and its printed form parses to the same
    path. */
  lemma PrintedAgain(s: string)
    requires Parsed(s).Ok?
    ensures Parsed(s).value != [] && Parsed(Printed(Parsed(s).value)) == Parsed(s)
  {
    ParsePrinted(Parsed(s).value);
  }

  /** Without the leading "m/" the same text is a path relative to 44'/60'/0'/0. */
  lemma RelativePath(path: Path)
    requires path != [] && forall i | 0 <= i < |path| :: path[i] <= 0xFFFF_FFFF
    ensures |Printed(path)| > 2
    ensures Parsed(Printed(path)[2..]) == Ok([0x8000_002C, 0x8000_003C, 0x8000_0000, 0] + path)
  {
    var text := Component(path[0]) + Tail(path[1..]);
    TailFront(path);
    assert Printed(path) == "m" + ("/" + text);
    Unprefixed(text);
    ParsesRelative(path, text);
  }

  lemma {:induction false} ParsesRelative(path: Path, text: string)
    requires path != [] && forall i | 0 <= i < |path| :: path[i] <= MAX_UINT32
    requires text == Component(path[0]) + Tail(path[1..])
    ensures Parsed(text) == Ok([0x8000_002C, 0x8000_003C, 0x8000_0000, 0] + path)
  {
    ComponentChars(path[0]);
    SplitTail(Component(path[0]), path[1..]);
    assert Split(text) == Components(path);
    ComponentsRoundTrip(path);
    PlainComponent(path[0]);
  }

  lemma {:induction false} Unprefixed(text: string)
    ensures ("m" + ("/" + text))[2..] == text
  {
  }

  lemma PlainComponent(n: nat)
    ensures TrimSpace(Component(n)) == Component(n) && IsDigit(Component(n)[0])
  {
    var digits := Dec(if n >= HARDENED then n - HARDENED else n);
    assert IsDigit(digits[0]) && IsDigit(digits[|digits| - 1]);
    NothingToTrim(Component(n));
  }

  // ----- What else may be typed -----

  /** A digit up to 15 as a character, letters in upper or in lower case. */
  function DigitText(d: nat, upper: bool): char
    requires d < 16
  {
    if d < 10 then (d + 48) as char else if upper then (d + 55) as char else (d + 87) as char
  }

  predicate Below(digits: seq<nat>, base: nat) {
    forall i | 0 <= i < |digits| :: digits[i] < base
  }

  function Text(digits: seq<nat>, upper: bool): (s: string)
    requires Below(digits, 16)
  {
    seq(|digits|, i requires 0 <= i < |digits| => DigitText(digits[i], upper))
  }

  /** The number that digits stand for in a base. */
  function InBase(digits: seq<nat>, base: nat): nat {
    if digits == [] then 0 else InBase(digits[..|digits| - 1], base) * base + digits[|digits| - 1]
  }

  lemma DigitTextValue(d: nat, upper: bool)
    requires d < 16
    ensures DigitValue(DigitText(d, upper)) == d && DigitText(d, upper) != '_'
  {
  }

  lemma {:induction false} ScanText(digits: seq<nat>, upper: bool, base: nat, t: string, afterDigit: bool, seen: bool)
    requires base <= 16 && Below(digits, base)
    ensures ScanDigits(Text(digits, upper) + t, base, afterDigit, seen, 0) ==
            if digits == [] then ScanDigits(t, base, afterDigit, seen, 0)
            else ScanDigits(t, base, true, true, InBase(digits, base))
    decreases |digits|
  {
    if digits == [] {
      assert Text(digits, upper) + t == t;
    } else {
      var last := |digits| - 1;
      var init, c := digits[..last], [DigitText(digits[last], upper)];
      ScanText(init, upper, base, c + t, afterDigit, seen);
      TextLast(digits, upper, t);
      ScanDigitText(digits[last], upper, base, t, afterDigit || init != [], seen || init != [], InBase(init, base));
    }
  }

  lemma {:induction false} TextLast(digits: seq<nat>, upper: bool, t: string)
    requires digits != [] && Below(digits, 16)
    ensures Text(digits, upper) + t ==
            Text(digits[..|digits| - 1], upper) + ([DigitText(digits[|digits| - 1], upper)] + t)
  {
    var init, c := Text(digits[..|digits| - 1], upper), [DigitText(digits[|digits| - 1], upper)];
    assert Text(digits, upper) == init + c;
    assert init + c + t == init + (c + t);
  }

  lemma {:induction false} ScanDigitText(d: nat, upper: bool, base: nat, t: string, afterDigit: bool, seen: bool,
                                         value: nat)
    requires d < base <= 16
    ensures ScanDigits([DigitText(d, upper)] + t, base, afterDigit, seen, value) ==
            ScanDigits(t, base, true, true, value * base + d)
  {
    var s := [DigitText(d, upper)] + t;
    assert s[1..] == t && s[0] == DigitText(d, upper);
    DigitTextValue(d, upper);
  }

  /** After a prefix a number is read in base 2, 8 or 16, in digits of either case; a leading zero alone
    means base 8. */
  lemma PrefixedNumbers(digits: seq<nat>, upper: bool)
    requires digits != [] && Below(digits, 16)
    ensures SetString("0x" + Text(digits, upper)) == SetString("0X" + Text(digits, upper)) == Some(InBase(digits, 16))
    ensures Below(digits, 8) ==>
              && SetString("0o" + Text(digits, upper)) == SetString("0O" + Text(digits, upper)) ==
                 Some(InBase(digits, 8))
              && SetString("0" + Text(digits, upper)) == Some(InBase(digits, 8))
    ensures Below(digits, 2) ==>
              SetString("0b" + Text(digits, upper)) == SetString("0B" + Text(digits, upper)) == Some(InBase(digits, 2))
  {
    AfterPrefix(digits, upper, "0x", 16);
    AfterPrefix(digits, upper, "0X", 16);
    if Below(digits, 8) {
      AfterPrefix(digits, upper, "0o", 8);
      AfterPrefix(digits, upper, "0O", 8);
      AfterPrefix(digits, upper, "0", 8);
    }
    if Below(digits, 2) {
      AfterPrefix(digits, upper, "0b", 2);
      AfterPrefix(digits, upper, "0B", 2);
    }
  }

  lemma {:induction false} AfterPrefix(digits: seq<nat>, upper: bool, prefix: string, base: nat)
    requires digits != [] && base <= 16 && Below(digits, base)
    requires (base == 2 && prefix in ["0b", "0B"]) || (base == 8 && prefix in ["0", "0o", "0O"])
             || (base == 16 && prefix in ["0x", "0X"])
    ensures SetString(prefix + Text(digits, upper)) == Some(InBase(digits, base))
  {
    var text := Text(digits, upper);
    ScanText(digits, upper, base, "", true, false);
    assert text + "" == text;
    var s := prefix + text;
    assert s[|prefix|..] == text && s[0] == '0' && |s| > 1;
    assert SetString(s) == ScanNumber(s);
    if prefix == "0" {
      assert s[1] == text[0] == DigitText(digits[0], upper);
      assert s[1] !in "bB" && s[1] !in "oO" && s[1] !in "xX";
    } else {
      assert s[1] == prefix[1] && s[2..] == text;
      assert s[1] in "bB" <==> base == 2;
      assert s[1] in "oO" <==> base == 8;
    }
  }

  /** A digit of one of the four bases. */
  predicate DigitIn(c: char, base: nat) {
    match base
    case 2 => c == '0' || c == '1'
    case 8 => '0' <= c <= '7'
    case 10 => '0' <= c <= '9'
    case 16 => '0' <= c <= '9' || 'a' <= c <= 'f' || 'A' <= c <= 'F'
    case _ => false
  }

  /** Digits, with single underscores between them and, after a prefix, before them. */
  predicate Digits(s: string, base: nat, prefixed: bool) {
    && s != "" && s[|s| - 1] != '_' && (s[0] == '_' ==> prefixed)
    && (forall i | 0 <= i < |s| :: s[i] == '_' || DigitIn(s[i], base))
    && (forall i | 0 < i < |s| :: s[i] == '_' ==> s[i - 1] != '_')
  }

  lemma DigitInBase(c: char, base: nat)
    requires base in {2, 8, 10, 16}
    ensures DigitIn(c, base) <==> DigitValue(c) < base
  {
  }

  lemma {:induction false} ScanExact(s: string, base: nat, afterDigit: bool, seen: bool, value: nat)
    requires base in {2, 8, 10, 16}
    ensures ScanDigits(s, base, afterDigit, seen, value).Some? <==>
            if s == "" then afterDigit && seen else Digits(s, base, afterDigit)
  {
    if s != "" {
      var rest := s[1..];
      DigitInBase(s[0], base);
      DigitInBase('_', base);
      if s[0] == '_' {
        ScanExact(rest, base, false, seen, value);
      } else {
        ScanExact(rest, base, true, true, value * base + DigitValue(s[0]));
      }
      DigitsCons(s, base, afterDigit);
    }
  }

  lemma {:induction false} DigitsCons(s: string, base: nat, prefixed: bool)
    requires s != ""
    ensures Digits(s, base, prefixed) <==>
            if s[0] == '_' then prefixed && Digits(s[1..], base, false)
            else DigitIn(s[0], base) && (s[1..] == "" || Digits(s[1..], base, true))
  {
    var rest := s[1..];
    assert s == [s[0]] + rest;
    assert forall i | 0 < i < |s| :: s[i] == rest[i - 1];
    assert forall i | 0 <= i < |rest| :: rest[i] == s[i + 1];
  }

  /** Underscores do not change the value. */
  lemma {:induction false} UnderscoresIgnored(s: string, base: nat, afterDigit: bool, seen: bool, value: nat)
    requires base in {2, 8, 10, 16} && ScanDigits(s, base, afterDigit, seen, value).Some?
    ensures ScanDigits(WithoutUnderscores(s), base, true, seen, value) == ScanDigits(s, base, afterDigit, seen, value)
  {
    if s != "" {
      DigitInBase('_', base);
      if s[0] == '_' {
        UnderscoresIgnored(s[1..], base, false, seen, value);
        assert WithoutUnderscores(s) == WithoutUnderscores(s[1..]);
      } else {
        UnderscoresIgnored(s[1..], base, true, true, value * base + DigitValue(s[0]));
        assert ([s[0]] + WithoutUnderscores(s[1..]))[1..] == WithoutUnderscores(s[1..]);
      }
    }
  }

  function WithoutUnderscores(s: string): string {
    if s == "" then "" else (if s[0] == '_' then "" else [s[0]]) + WithoutUnderscores(s[1..])
  }

  /** Which texts are numbers. */
  lemma {:induction false} NumbersExact(s: string)
    ensures ScanNumber(s).Some? <==>
            || s == "0"
            || (|s| > 1 && s[0] == '0' && (s[1] == 'b' || s[1] == 'B') && Digits(s[2..], 2, true))
            || (|s| > 1 && s[0] == '0' && (s[1] == 'o' || s[1] == 'O') && Digits(s[2..], 8, true))
            || (|s| > 1 && s[0] == '0' && (s[1] == 'x' || s[1] == 'X') && Digits(s[2..], 16, true))
            || (|s| > 1 && s[0] == '0' && Digits(s[1..], 8, true))
            || (s != "" && s[0] != '0' && Digits(s, 10, false))
  {
    if |s| > 1 && s[0] == '0' {
      ScanExact(s[1..], 8, true, false, 0);
      ScanExact(s[2..], 2, true, false, 0);
      ScanExact(s[2..], 8, true, false, 0);
      ScanExact(s[2..], 16, true, false, 0);
      DigitsCons(s[1..], 8, true);
      assert s[1] in "bB" <==> s[1] == 'b' || s[1] == 'B';
      assert s[1] in "oO" <==> s[1] == 'o' || s[1] == 'O';
      assert s[1] in "xX" <==> s[1] == 'x' || s[1] == 'X';
    } else {
      ScanExact(s, 10, false, false, 0);
    }
  }

  /** The characters that count as spaces. */
  predicate Blank(c: char) {
    var n := c as int;
    || 9 <= n <= 13 || n == 32 || n == 133 || n == 160 || n == 5760 || 8192 <= n <= 8202
    || n == 8232 || n == 8233 || n == 8239 || n == 8287 || n == 12288
  }

  lemma BlankIsSpace(c: char)
    ensures Blank(c) <==> IsSpace(c)
  {
  }

  /** Spaces around a text do not count; a text that neither begins nor ends with one is left as it is. */
  lemma {:induction false} SpacesAround(a: string, s: string, b: string)
    requires forall c | c in a || c in b :: Blank(c)
    ensures TrimSpace(a + s + b) == TrimSpace(s)
    ensures s != "" && !Blank(s[0]) && !Blank(s[|s| - 1]) ==> TrimSpace(a + s + b) == s
  {
    forall c | c in a || c in b || c in s ensures Blank(c) <==> IsSpace(c) {
      BlankIsSpace(c);
    }
    if s != "" && !Blank(s[0]) && !Blank(s[|s| - 1]) {
      assert s[0] in s && s[|s| - 1] in s;
      NothingToTrim(s);
    }
    assert a + s + b == a + (s + b);
    LeadingSpaces(a, s + b);
    TrimLeftAppend(s, b);
    if TrimLeft(s) == "" {
      LeadingSpaces(b, "");
      assert b + "" == b;
    } else {
      TrailingSpaces(TrimLeft(s), b);
    }
  }

  lemma {:induction false} LeadingSpaces(a: string, s: string)
    requires forall c | c in a :: IsSpace(c)
    ensures TrimLeft(a + s) == TrimLeft(s)
  {
    if a == "" {
      assert a + s == s;
    } else {
      assert (a + s)[1..] == a[1..] + s;
      LeadingSpaces(a[1..], s);
    }
  }

  lemma {:induction false} TrailingSpaces(s: string, b: string)
    requires forall c | c in b :: IsSpace(c)
    ensures TrimRight(s + b) == TrimRight(s)
  {
    if b == "" {
      assert s + b == s;
    } else {
      var last := |b| - 1;
      assert (s + b)[..|s + b| - 1] == s + b[..last];
      TrailingSpaces(s, b[..last]);
    }
  }

  lemma {:induction false} TrimLeftAppend(s: string, b: string)
    ensures TrimLeft(s + b) == if TrimLeft(s) == "" then TrimLeft(b) else TrimLeft(s) + b
  {
    if s == "" {
      assert s + b == b;
    } else if IsSpace(s[0]) {
      assert (s + b)[1..] == s[1..] + b;
      TrimLeftAppend(s[1..], b);
    }
  }

  /** Nothing but spaces before the first slash, or without one, is ambiguous; "m" alone is empty. */
  lemma NoStart(a: string, t: string)
    requires forall x | x in a :: Blank(x)
    ensures Parsed(a) == Parsed(a + ("/" + t)) == Err(AmbiguousPath)
    ensures Parsed("m") == Err(EmptyPath)
  {
    assert a + "" == a && a + "" + "" == a;
    SpacesAround(a, "", "");
    assert '/' !in a;
    SplitNoSlash(a);
    SplitAtSlash(a, t);
    SplitNoSlash("m");
    NothingToTrim("m");
  }

  /** Exactly the numbers of 32 bits are components, and exactly those of 31 bits hardened ones, whatever spaces are
    around; negative ones are out of range as well. */
  lemma {:induction false} ComponentRange(n: nat, a: string, b: string)
    requires forall x | x in a || x in b :: Blank(x)
    ensures ParseComponent(a + Dec(n) + b) == if n <= 0xFFFF_FFFF then Ok(n) else Err(OutOfRange)
    ensures n > 0 ==> ParseComponent(a + ("-" + Dec(n)) + b) == Err(OutOfRange)
  {
    var digits := Dec(n);
    assert IsDigit(digits[0]) && IsDigit(digits[|digits| - 1]);
    NumeralRoundTrip(n);
    NothingToTrim(digits);
    SpacesAround(a, digits, b);
    var negative := "-" + digits;
    SpacesAround(a, negative, b);
    NothingToTrim(negative);
    assert negative[1..] == digits;
  }

  lemma {:induction false} HardenedRange(n: nat, a: string, b: string, c: string)
    requires forall x | x in a || x in b || x in c :: Blank(x)
    ensures ParseComponent(a + (Dec(n) + b + "'") + c) ==
            if n <= 0x7FFF_FFFF then Ok(0x8000_0000 + n) else Err(OutOfRange)
  {
    var digits := Dec(n);
    assert IsDigit(digits[0]) && IsDigit(digits[|digits| - 1]);
    NumeralRoundTrip(n);
    NothingToTrim(digits);
    var hardened := digits + b + "'";
    SpacesAround(a, hardened, c);
    NothingToTrim(hardened);
    assert hardened[..|hardened| - 1] == "" + digits + b;
    SpacesAround("", digits, b);
  }
}
