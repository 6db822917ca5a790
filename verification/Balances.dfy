/** Account balances as 256-bit words, and their total. */
module Balances {
  type Address = nat
  type BalanceMap = map<Address, nat>

  const TWO_256: nat := 0x1_0000000000000000_0000000000000000_0000000000000000_0000000000000000

  function BalanceOf(m: BalanceMap, a: Address): nat {
    if a in m then m[a] else 0
  }

  /** 256-bit addition; wraps around. */
  function AddBalance(m: BalanceMap, a: Address, amount: nat): BalanceMap {
    m[a := (BalanceOf(m, a) + amount) % TWO_256]
  }

  /** 256-bit subtraction; wraps around. */
  function SubBalance(m: BalanceMap, a: Address, amount: nat): BalanceMap {
    m[a := (BalanceOf(m, a) - amount) % TWO_256]
  }

  /** The sum of all balances. */
  ghost function Total(m: BalanceMap): nat
    decreases |m|
  {
    if m == map[] then 0
    else
      var a: Address :| a in m;
      assert |m - {a}| == |m| - 1 by { Shrinks(m, a); }
      m[a] + Total(m - {a})
  }

  lemma Shrinks(m: BalanceMap, a: Address)
    requires a in m
    ensures |m - {a}| == |m| - 1
  {
    assert m.Keys == (m - {a}).Keys + {a};
  }

  /** The total does not depend on the order of summation. */
  lemma {:induction false} TotalWithout(m: BalanceMap, a: Address)
    requires a in m
    ensures Total(m) == m[a] + Total(m - {a})
    decreases |m|
  {
    var b: Address :| b in m && Total(m) == m[b] + Total(m - {b});
    if a != b {
      Shrinks(m, b);
      Shrinks(m, a);
      TotalWithout(m - {b}, a);
      TotalWithout(m - {a}, b);
      assert m - {b} - {a} == m - {a} - {b};
    }
  }

  lemma TotalUpdate(m: BalanceMap, a: Address, v: nat)
    ensures Total(m[a := v]) == Total(m) - BalanceOf(m, a) + v
    ensures BalanceOf(m, a) <= Total(m)
  {
    var m' := m[a := v];
    TotalWithout(m', a);
    if a in m {
      TotalWithout(m, a);
      assert m' - {a} == m - {a};
    } else {
      assert m' - {a} == m;
    }
  }

  /** An addition that does not push the total over 256 bits adds exactly the amount. */
  lemma AddTotal(m: BalanceMap, a: Address, amount: nat)
    requires Total(m) + amount < TWO_256
    ensures Total(AddBalance(m, a, amount)) == Total(m) + amount
    ensures BalanceOf(AddBalance(m, a, amount), a) == BalanceOf(m, a) + amount
  {
    TotalUpdate(m, a, BalanceOf(m, a) + amount);
  }

  /** A subtraction from a sufficient balance takes exactly the amount. */
  lemma SubTotal(m: BalanceMap, a: Address, amount: nat)
    requires amount <= BalanceOf(m, a) && Total(m) < TWO_256
    ensures Total(SubBalance(m, a, amount)) == Total(m) - amount
    ensures BalanceOf(SubBalance(m, a, amount), a) == BalanceOf(m, a) - amount
  {
    TotalUpdate(m, a, BalanceOf(m, a) - amount);
  }
}
