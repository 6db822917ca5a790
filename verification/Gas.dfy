/** Gas: the block's pool, the cost of a transaction before it runs, and the gas it is finally charged. */
module Gas {
  import opened Wrappers

  const MAX_UINT64: nat := 0xFFFF_FFFF_FFFF_FFFF
  const TWO_64: nat := 0x1_0000_0000_0000_0000

  const TX_GAS: nat := 21000
  const TX_GAS_CONTRACT_CREATION: nat := 53000
  const TX_DATA_ZERO_GAS: nat := 4
  const TX_DATA_NON_ZERO_GAS_FRONTIER: nat := 68
  const TX_DATA_NON_ZERO_GAS_EIP2028: nat := 16
  const INIT_CODE_WORD_GAS: nat := 2
  const TX_ACCESS_LIST_ADDRESS_GAS: nat := 2400
  const TX_ACCESS_LIST_STORAGE_KEY_GAS: nat := 1900
  const CALL_NEW_ACCOUNT_GAS: nat := 25000
  const TX_TOKEN_PER_NON_ZERO_BYTE: nat := 4
  const TX_COST_FLOOR_PER_TOKEN: nat := 10
  const REFUND_QUOTIENT: nat := 2
  const REFUND_QUOTIENT_EIP3529: nat := 5

  /** The gas left in a block. */
  class GasPool {
    var gas: nat

    ghost predicate Valid()
      reads this
    {
      gas <= MAX_UINT64
    }

    constructor (gas: nat)
      requires gas <= MAX_UINT64
      ensures Valid() && this.gas == gas
    {
      this.gas := gas;
    }

    /** Gives gas back; reports whether that would overflow, which the source panics on. */
    method AddGas(amount: nat) returns (panicked: bool)
      requires Valid() && amount <= MAX_UINT64
      modifies this
      ensures Valid()
      ensures panicked <==> old(gas) + amount >= 0x1_0000_0000_0000_0000
      ensures gas == if panicked then old(gas) else old(gas) + amount
    {
      if gas > MAX_UINT64 - amount {
        return true;
      }
      gas := gas + amount;
      return false;
    }

    /** Takes gas out, or fails and leaves the pool alone. */
    method SubGas(amount: nat) returns (ok: bool)
      requires Valid()
      modifies this
      ensures Valid()
      ensures ok <==> amount <= old(gas)
      ensures gas == if ok then old(gas) - amount else old(gas)
    {
      if gas < amount {
        return false;
      }
      gas := gas - amount;
      return true;
    }
  }

  // ----- Costs before execution -----

  type Bytes = seq<nat>

  function Zeros(data: Bytes): (z: nat)
    ensures z <= |data|
  {
    if data == [] then 0 else Zeros(data[1..]) + if data[0] == 0 then 1 else 0
  }

  /** Counting zero bytes one by one counts how often zero occurs. */
  lemma {:induction false} ZerosCounted(data: Bytes)
    ensures Zeros(data) == multiset(data)[0]
  {
    if data != [] {
      ZerosCounted(data[1..]);
      assert data == [data[0]] + data[1..];
    }
  }

  /** The words init code is charged for; sizes near the top of the 64-bit range are handled apart. */
  function ToWordSize(size: nat): nat {
    if size > MAX_UINT64 - 31 then MAX_UINT64 / 32 + 1 else (size + 31) / 32
  }

  /** What the gas of a transaction depends on: its data, its access list as (addresses, keys) and its
    authorizations. */
  datatype Payload = Payload(data: Bytes, accessList: Option<(nat, nat)>, auths: Option<nat>, creation: bool)

  datatype GasRules = GasRules(homestead: bool, eip2028: bool, eip3860: bool)

  /** A sum, or None when it exceeds 64 bits. */
  function Checked(sum: nat): Option<nat> {
    if sum > MAX_UINT64 then None else Some(sum)
  }

  /** Adds n items at a price, or None when the sum would exceed 64 bits. */
  function AddGuarded(gas: nat, price: nat, n: nat): Option<nat>
    requires price > 0 && gas <= MAX_UINT64
  {
    if (MAX_UINT64 - gas) / price < n then None else Some(gas + n * price)
  }

  lemma AddExact(gas: nat, price: nat, n: nat)
    requires gas <= MAX_UINT64 && price > 0
    ensures AddGuarded(gas, price, n) == Checked(gas + n * price)
  {
    var q := (MAX_UINT64 - gas) / price;
    if n <= q {
      assert n * price <= q * price;
    } else {
      assert (q + 1) * price <= n * price;
    }
  }

  /** The exact cost of the data: a base, 4 for each zero byte, 16 or 68 for each other, 2 for each word of
    init code. */
  ghost function DataGas(p: Payload, r: GasRules): nat {
    var z := multiset(p.data)[0];
    ZerosCounted(p.data);
    (if p.creation && r.homestead then 53000 else 21000) + (|p.data| - z) * (if r.eip2028 then 16 else 68) + z * 4
    + if p.creation && r.eip3860 then (|p.data| + 31) / 32 * 2 else 0
  }

  /** The exact cost of the access and authorization lists. */
  ghost function ListCost(p: Payload): nat {
    (if p.accessList.Some? then p.accessList.value.0 * 2400 + p.accessList.value.1 * 1900 else 0)
    + if p.auths.Some? then p.auths.value * 25000 else 0
  }

  /** The cost before execution on 64-bit words: an overflow by the data is found, one by the lists is not. */
  ghost function Intrinsic(p: Payload, r: GasRules): Option<nat> {
    if DataGas(p, r) > MAX_UINT64 then None else Some((DataGas(p, r) + ListCost(p)) % TWO_64)
  }

  /** The data part: base, data bytes, init code words. None is an overflow. */
  method DataPart(p: Payload, r: GasRules) returns (gas: Option<nat>)
    ensures gas == Checked(DataGas(p, r))
  {
    var sum := if p.creation && r.homestead then TX_GAS_CONTRACT_CREATION else TX_GAS;
    var dataLen := |p.data|;
    var z := Zeros(p.data);
    ZerosCounted(p.data);
    if dataLen == 0 {
      return Some(sum);
    }
    var nz := dataLen - z;
    var nonZeroGas := if r.eip2028 then TX_DATA_NON_ZERO_GAS_EIP2028 else TX_DATA_NON_ZERO_GAS_FRONTIER;
    ghost var words := if p.creation && r.eip3860 then ToWordSize(dataLen) else 0;
    DataSum(p, r, sum, nz * nonZeroGas, z * TX_DATA_ZERO_GAS, words * INIT_CODE_WORD_GAS);
    AddExact(sum, nonZeroGas, nz);
    gas := AddGuarded(sum, nonZeroGas, nz);
    if gas.Some? {
      AddExact(gas.value, TX_DATA_ZERO_GAS, z);
      gas := AddGuarded(gas.value, TX_DATA_ZERO_GAS, z);
    }
    if gas.Some? && p.creation && r.eip3860 {
      AddExact(gas.value, INIT_CODE_WORD_GAS, ToWordSize(dataLen));
      gas := AddGuarded(gas.value, INIT_CODE_WORD_GAS, ToWordSize(dataLen));
    }
  }

  /** The parts of the exact cost; of data too long for its words to be counted exactly the bytes alone are too much. */
  lemma {:induction false} DataSum(p: Payload, r: GasRules, base: nat, nonZero: nat, zero: nat, words: nat)
    requires base == if p.creation && r.homestead then 53000 else 21000
    requires var z := multiset(p.data)[0];
             z <= |p.data| && nonZero == (|p.data| - z) * (if r.eip2028 then 16 else 68) && zero == z * 4
    requires words == if p.creation && r.eip3860 then ToWordSize(|p.data|) * 2 else 0
    ensures Checked(DataGas(p, r)) == Checked(base + nonZero + zero + words)
  {
    var z := multiset(p.data)[0];
    assert nonZero >= (|p.data| - z) * 4;
    WordSize(|p.data|);
  }

  lemma WordSize(size: nat)
    ensures size <= MAX_UINT64 ==> ToWordSize(size) == (size + 31) / 32
  {
  }

  /** The gas a transaction costs before it runs. An overflow is reported exactly when the data alone costs more than 64
    bits hold, and the result is the exact cost exactly when the whole cost fits; otherwise the unchecked list part has
    wrapped around. */
  method IntrinsicGas(p: Payload, r: GasRules) returns (gas: Option<nat>)
    ensures gas == Intrinsic(p, r)
    ensures gas == None <==> DataGas(p, r) > 0xFFFF_FFFF_FFFF_FFFF
    ensures gas == Some(DataGas(p, r) + ListCost(p)) <==> DataGas(p, r) + ListCost(p) <= 0xFFFF_FFFF_FFFF_FFFF
  {
    gas := DataPart(p, r);
    if gas.None? {
      return;
    }
    FitsWord(DataGas(p, r) + ListCost(p));
    var sum := ListPart(p, gas.value);
    gas := Some(sum);
  }

  /** The list part, added without a check. */
  method ListPart(p: Payload, gas: nat) returns (sum: nat)
    requires gas <= MAX_UINT64
    ensures sum == (gas + ListCost(p)) % TWO_64
  {
    sum := gas;
    ghost var exact := gas;
    FitsWord(gas);
    if p.accessList.Some? {
      var addresses, keys := p.accessList.value.0 * TX_ACCESS_LIST_ADDRESS_GAS,
                             p.accessList.value.1 * TX_ACCESS_LIST_STORAGE_KEY_GAS;
      WrapTwice(gas, addresses);
      WrapTwice(gas + addresses, keys);
      sum := (sum + addresses) % TWO_64;
      sum := (sum + keys) % TWO_64;
      exact := gas + (addresses + keys);
    }
    assert sum == exact % TWO_64;
    if p.auths.Some? {
      WrapTwice(exact, p.auths.value * CALL_NEW_ACCOUNT_GAS);
      sum := (sum + p.auths.value * CALL_NEW_ACCOUNT_GAS) % TWO_64;
    }
  }

  lemma WrapTwice(a: nat, b: nat)
    ensures (a % TWO_64 + b) % TWO_64 == (a + b) % TWO_64
  {
  }

  lemma FitsWord(x: nat)
    ensures x % TWO_64 == x <==> x <= MAX_UINT64
  {
  }

  /** The addresses a 64-bit machine can use for data. A byte of data takes one of them, a tuple of an access list or an
    authorization at least its address, a storage key its hash. */
  const ADDRESS_SPACE: nat := 0x1_0000_0000_0000
  const ADDRESS_LENGTH: nat := 20
  const HASH_LENGTH: nat := 32

  /** The transaction fits in memory. */
  predicate InMemory(p: Payload) {
    |p.data|
    + (if p.accessList.Some? then p.accessList.value.0 * ADDRESS_LENGTH + p.accessList.value.1 * HASH_LENGTH else 0)
    + (if p.auths.Some? then p.auths.value * ADDRESS_LENGTH else 0) <= ADDRESS_SPACE
  }

  /** For every transaction that fits in memory both costs are exact: no guard is ever taken and no addition wraps. */
  lemma CostsExact(p: Payload, r: GasRules)
    requires InMemory(p)
    ensures Intrinsic(p, r) == Some(DataGas(p, r) + ListCost(p))
    ensures var z := multiset(p.data)[0];
            FloorCost(p.data) == Some(21000 + ((|p.data| - z) * 4 + z) * 10)
  {
    DataGasBound(p, r);
    ListGasBound(p);
    FloorExact(p.data);
  }

  lemma DataGasBound(p: Payload, r: GasRules)
    ensures DataGas(p, r) <= 53000 + 70 * (|p.data| + 1)
  {
    var n, z := |p.data|, Zeros(p.data);
    ZerosCounted(p.data);
    assert (n - z) * (if r.eip2028 then 16 else 68) <= 68 * (n - z);
    assert (n + 31) / 32 * 2 <= 2 * n + 2;
  }

  lemma ListGasBound(p: Payload)
    requires InMemory(p)
    ensures ListCost(p) <= 2000 * ADDRESS_SPACE
  {
  }

  /** The unchecked part does wrap in principle: an access list of this length, far beyond any memory, would cost less
    than a plain transfer. */
  lemma IntrinsicWraps()
    ensures exists p, r :: !InMemory(p) && Intrinsic(p, r).Some? && Intrinsic(p, r).value < 21000
  {
    var p := Payload([], Some((7686143364045638, 0)), None, false);
    var r := GasRules(true, true, true);
    assert !InMemory(p) && Intrinsic(p, r).Some? && Intrinsic(p, r).value < 21000;
  }

  /** The floor on 64-bit words, 10 for each token, of which a byte is four unless it is zero; None is an overflow. */
  ghost function FloorCost(data: Bytes): Option<nat> {
    var z := multiset(data)[0];
    ZerosCounted(data);
    Checked(21000 + ((|data| - z) * 4 + z) % TWO_64 * 10)
  }

  /** The least gas a transaction pays for its data. */
  method FloorDataGas(data: Bytes) returns (floor: Option<nat>)
    ensures floor == FloorCost(data)
  {
    ZerosCounted(data);
    var z := Zeros(data);
    var nz := |data| - z;
    var tokens := (nz * TX_TOKEN_PER_NON_ZERO_BYTE + z) % TWO_64;
    AddExact(TX_GAS, TX_COST_FLOOR_PER_TOKEN, tokens);
    floor := AddGuarded(TX_GAS, TX_COST_FLOOR_PER_TOKEN, tokens);
  }

  /** For data that fits in memory the floor is exact, and is an overflow exactly when it exceeds 64 bits. */
  lemma FloorExact(data: Bytes)
    requires |data| < 0x4000_0000_0000_0000
    ensures var z := multiset(data)[0];
            z <= |data| && FloorCost(data) == Checked(21000 + ((|data| - z) * 4 + z) * 10)
  {
    ZerosCounted(data);
  }

  // ----- Gas charged -----

  function Min(a: nat, b: nat): nat { if a <= b then a else b }

  function Max(a: nat, b: nat): nat { if a >= b then a else b }

  /** A refund may not exceed the counter nor, taken as often as the rules say, the gas spent. */
  predicate MayRefund(spent: nat, counter: nat, london: bool, r: nat) {
    r <= counter && r * (if london then 5 else 2) <= spent
  }

  /** The capped refund is the most that may be refunded. */
  lemma CappedIsMost(spent: nat, counter: nat, london: bool, r: nat)
    ensures r == CappedRefund(spent, counter, london) <==>
            MayRefund(spent, counter, london, r) && !MayRefund(spent, counter, london, r + 1)
  {
    var quotient := if london then 5 else 2;
    var q := spent / quotient;
    assert q * quotient <= spent < (q + 1) * quotient;
  }

  /** The refund, capped to a share of the gas spent. */
  function CappedRefund(spent: nat, refund: nat, london: bool): (r: nat)
    ensures r <= spent / 2 && r <= refund
  {
    Min(spent / (if london then REFUND_QUOTIENT_EIP3529 else REFUND_QUOTIENT), refund)
  }

  /** The gas a transaction pays for: what it spent less the capped refund, but no less than the floor. */
  function ChargedGas(spent: nat, refund: nat, floor: nat, london: bool): (used: nat)
    ensures floor <= used && spent - spent / 2 <= used && (used <= spent || used == floor)
  {
    Max(spent - CappedRefund(spent, refund, london), floor)
  }
}
