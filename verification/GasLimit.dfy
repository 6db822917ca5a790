/** How the gas limit moves from block to block. */
module GasLimits {
  import opened Gas

  const GAS_LIMIT_BOUND_DIVISOR: nat := 1024
  const MIN_GAS_LIMIT: nat := 5000

  /** CalcGasLimit on 64-bit words. */
  function CalcGasLimit(parent: nat, desired: nat): nat {
    var delta := (parent / GAS_LIMIT_BOUND_DIVISOR - 1) % TWO_64;
    var goal := Goal(desired);
    if parent < goal then
      var limit := (parent + delta) % TWO_64;
      if limit > goal then goal else limit
    else if parent > goal then
      var limit := (parent - delta) % TWO_64;
      if limit < goal then goal else limit
    else parent
  }

  /** The limit aimed at: the desired one, but not below the minimum. */
  function Goal(desired: nat): nat {
    if desired < MIN_GAS_LIMIT then MIN_GAS_LIMIT else desired
  }

  /** What the limits are to reach: the desired limit, or 5000 when less is desired. */
  ghost function Aim(desired: nat): nat {
    if desired < 5000 then 5000 else desired
  }

  /** A step lies between parent and goal, changes the limit by less than a 1024th of the parent, and by the most that
    this allows unless it reaches the goal. */
  ghost predicate Honing(parent: nat, desired: nat, limit: nat) {
    var goal, change := Aim(desired), if parent <= limit then limit - parent else parent - limit;
    && (if parent <= goal then parent <= limit <= goal else goal <= limit <= parent)
    && change < parent / 1024
    && (limit != goal ==> change + 1 == parent / 1024)
  }

  /** From a parent of at least the minimum, a step hones in on the goal if and only if it does not have to climb
    over the top of the 64-bit range. */
  lemma StepHones(parent: nat, desired: nat)
    requires 5000 <= parent <= MAX_UINT64 && desired <= MAX_UINT64
    ensures Honing(parent, desired, CalcGasLimit(parent, desired)) <==>
            Aim(desired) <= parent || parent + parent / 1024 - 1 <= 0xFFFF_FFFF_FFFF_FFFF
  {
    var q := parent / GAS_LIMIT_BOUND_DIVISOR;
    assert q * GAS_LIMIT_BOUND_DIVISOR <= parent && q >= 4;
    assert (q - 1) % TWO_64 == q - 1;
    if parent + q - 1 <= MAX_UINT64 {
      assert (parent + (q - 1)) % TWO_64 == parent + q - 1;
    } else {
      assert (parent + (q - 1)) % TWO_64 == parent + q - 1 - TWO_64;
    }
    assert (parent - (q - 1)) % TWO_64 == parent - (q - 1);
  }

  /** From a parent within the limits of a valid header, from 5000 up to 2^63 - 1, every step hones in on the goal,
    whatever is desired. */
  lemma ValidParentHones(parent: nat, desired: nat)
    requires 5000 <= parent <= 0x7FFF_FFFF_FFFF_FFFF && desired <= MAX_UINT64
    ensures Honing(parent, desired, CalcGasLimit(parent, desired))
  {
    StepHones(parent, desired);
  }

  /** Above every valid limit the range does end: a parent from which the next limit wraps around to almost nothing. */
  lemma StepWraps()
    ensures CalcGasLimit(0xFFFF_FFFF_FFFF_FFFE, 0xFFFF_FFFF_FFFF_FFFF) < 0x7FFF_FFFF_FFFF_FFFF
  {
  }

  /** The limit after k blocks that all desire the same limit. */
  function Iterate(parent: nat, desired: nat, k: nat): nat
    decreases k
  {
    if k == 0 then parent else Iterate(CalcGasLimit(parent, desired), desired, k - 1)
  }

  /** The goal is reached, without ever overshooting it, in at most as many blocks as the distance, and kept. */
  lemma {:induction false} Converges(parent: nat, desired: nat, k: nat)
    requires 5000 <= parent <= MAX_UINT64 && desired + desired / 1024 <= MAX_UINT64
    ensures var limit := Iterate(parent, desired, k);
            && (if parent <= Aim(desired) then parent <= limit <= Aim(desired) else Aim(desired) <= limit <= parent)
            && (k >= (if parent <= Aim(desired) then Aim(desired) - parent else parent - Aim(desired)) ==>
                  limit == Aim(desired))
    decreases k
  {
    if k > 0 {
      StepHones(parent, desired);
      Converges(CalcGasLimit(parent, desired), desired, k - 1);
    }
  }
}
