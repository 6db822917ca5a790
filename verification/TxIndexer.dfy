/** The controller of the transaction index range. Indexing and unindexing work block by block and may be interrupted.
  Bodies exist up to some number, which a rewind lowers while lookup entries and the tail stay where they are. */
module TxIndexers {
  import opened Wrappers
  import opened Gas

  /** The blocks lo..hi, none when hi < lo. */
  ghost function Range(lo: nat, hi: int): (r: set<nat>)
    ensures forall n: nat :: n in r <==> lo <= n <= hi
  {
    set n: nat | n <= hi && NotBelow(n, lo)
  }

  predicate NotBelow(n: nat, lo: nat) { n >= lo }

  datatype Progress = Progress(indexed: nat, remaining: nat)

  /** The first block that should be indexed for a head. */
  function Target(limit: nat, head: nat): nat {
    if limit == 0 || head < limit then 0 else head - limit + 1
  }

  /** Everything from the tail to the head is indexed. What is indexed above the head or below the tail is left open. */
  ghost predicate Marked(tail: Option<nat>, indexed: set<nat>, head: nat) {
    tail.Some? ==> tail.value <= head + 1 && Range(tail.value, head) <= indexed
  }

  /** What is indexed below the tail, or at all without one, is wanted anyway, and nothing is indexed above the head. */
  ghost predicate Clean(limit: nat, tail: Option<nat>, indexed: set<nat>, head: nat) {
    indexed <= Range(if tail.Some? then Min(tail.value, Target(limit, head)) else Target(limit, head), head)
  }

  /** What is indexed once the wanted blocks have been added and those between the tail and them removed. */
  ghost function Wanted(limit: nat, tail: Option<nat>, indexed: set<nat>, head: nat): set<nat> {
    indexed + Range(Target(limit, head), head) - (if tail.Some? then Range(tail.value, Target(limit, head) - 1) else {})
  }

  /** Indexing from last up to the old tail, or to the head. */
  lemma IndexedDown(limit: nat, tail: Option<nat>, indexed: set<nat>, head: nat, last: nat, to: nat)
    requires Marked(tail, indexed, head) && to == (if tail.Some? then tail.value else head + 1)
    requires Target(limit, head) <= last <= to
    ensures Marked(Some(last), indexed + Range(last, to - 1), head)
    ensures Clean(limit, tail, indexed, head) ==> Clean(limit, Some(last), indexed + Range(last, to - 1), head)
    ensures last == Target(limit, head) ==>
              && (indexed + Range(last, to - 1) == Range(last, head) <==> Clean(limit, tail, indexed, head))
              && indexed + Range(last, to - 1) == Wanted(limit, tail, indexed, head)
  {
  }

  /** Unindexing from the old tail up to next. */
  lemma UnindexedUp(limit: nat, tail: nat, indexed: set<nat>, head: nat, next: nat)
    requires Marked(Some(tail), indexed, head) && tail <= next <= Target(limit, head)
    ensures Marked(Some(next), indexed - Range(tail, next - 1), head)
    ensures Clean(limit, Some(tail), indexed, head) ==> Clean(limit, Some(next), indexed - Range(tail, next - 1), head)
    ensures next == Target(limit, head) ==>
              && (indexed - Range(tail, next - 1) == Range(next, head) <==> Clean(limit, Some(tail), indexed, head))
              && indexed - Range(tail, next - 1) == Wanted(limit, Some(tail), indexed, head)
  {
    if next == Target(limit, head) && !Clean(limit, Some(tail), indexed, head) {
      var n :| n in indexed && (n < tail || n > head);
      assert n in indexed - Range(tail, next - 1);
    }
  }

  /** How far an indexing of [from, to) gets: nowhere when the body of its first block is missing. */
  function IndexedFrom(from: nat, to: nat, bodies: nat, blocks: nat): nat
    requires from < to
  {
    if to - 1 > bodies then to else if to - from <= blocks then from else to - blocks
  }

  /** How far an unindexing of [from, to) gets: up to the first missing body. */
  function UnindexedTo(from: nat, to: nat, bodies: nat, blocks: nat): nat
    requires from < to
  {
    var end := if to - from <= blocks then to else from + blocks;
    if end <= bodies + 1 then end else if from <= bodies + 1 then bodies + 1 else from
  }

  /** The tail and the indexed blocks that a task leaves. */
  ghost function AfterTask(limit: nat, tail: Option<nat>, indexed: set<nat>, head: nat, bodies: nat, blocks: nat)
    : (Option<nat>, set<nat>)
  {
    var from := Target(limit, head);
    var to := if tail.None? || (from == 0 && (limit == 0 || head < limit) && tail.value > head + 1) then head + 1
      else tail.value;
    if head == 0 then (tail, indexed)
    else if from < to then
      var last := IndexedFrom(from, to, bodies, blocks);
      (Some(last), indexed + Range(last, to - 1))
    else if to < from then
      var next := UnindexedTo(to, from, bodies, blocks);
      (Some(next), indexed - Range(to, next - 1))
    else (tail, indexed)
  }

  /** What a task does that finds its tail above the block after the head, as a rewind can leave it, and when an
    uninterrupted task brings the tail where it belongs. */
  lemma TaskBeyond(limit: nat, tail: Option<nat>, indexed: set<nat>, head: nat, bodies: nat, blocks: nat)
    requires 0 < head <= bodies && blocks > head && (tail.Some? ==> blocks >= tail.value)
    ensures var (tail', indexed') := AfterTask(limit, tail, indexed, head, bodies, blocks);
            && (tail.Some? && tail.value > head + 1 ==>
                  if limit == 0 || head < limit then tail' == Some(0) && indexed' == indexed + Range(0, head)
                  else if tail.value <= bodies + 1 then
                    tail' == Some(Target(limit, head))
                      && indexed' == indexed + Range(Target(limit, head), tail.value - 1)
                  else tail' == tail && indexed' == indexed)
            && (tail' == Some(Target(limit, head)) <==>
                tail.None? || tail.value <= bodies + 1 || limit == 0 || head < limit)
  {
  }

  /** What a task leaves of an index that holds everything from its tail to the head. */
  lemma TaskOutcome(limit: nat, tail: Option<nat>, indexed: set<nat>, head: nat, bodies: nat, blocks: nat)
    ensures var (tail', indexed') := AfterTask(limit, tail, indexed, head, bodies, blocks);
            && (Marked(tail, indexed, head) ==> Marked(tail', indexed', head))
            && (Marked(tail, indexed, head) && Clean(limit, tail, indexed, head) ==>
                Clean(limit, tail', indexed', head))
            && (Marked(tail, indexed, head) && 0 < head <= bodies && blocks > head ==>
                  && tail' == Some(Target(limit, head)) && indexed' == Wanted(limit, tail, indexed, head)
                  && (indexed' == Range(Target(limit, head), head) <==> Clean(limit, tail, indexed, head)))
  {
    if Marked(tail, indexed, head) && head > 0 {
      var last := AfterTask(limit, tail, indexed, head, bodies, blocks).0.value;
      if tail.None? {
        IndexedDown(limit, tail, indexed, head, last, head + 1);
      } else if Target(limit, head) < tail.value {
        IndexedDown(limit, tail, indexed, head, last, tail.value);
      } else {
        UnindexedUp(limit, tail.value, indexed, head, last);
      }
    }
  }

  class TxIndexer {
    const limit: nat
    var tail: Option<nat>
    ghost var indexed: set<nat>  // the blocks whose transactions are indexed

    constructor (limit: nat)
      ensures this.limit == limit && tail == None && indexed == {}
    {
      this.limit, tail, indexed := limit, None, {};
    }

    /** Indexes [from, to) from the top down; stops at a missing body, or early after some blocks when interrupted. The
      tail is written in any case. */
    method IndexTransactions(from: nat, to: nat, bodies: nat, blocks: nat)
      modifies this
      ensures from >= to ==> tail == old(tail) && indexed == old(indexed)
      ensures from < to ==> var last := IndexedFrom(from, to, bodies, blocks);
                            tail == Some(last) && indexed == old(indexed) + Range(last, to - 1)
    {
      if from >= to {
        return;
      }
      var lastNum := to;
      ghost var before := indexed;
      while lastNum > from && to - lastNum < blocks && lastNum - 1 <= bodies
        invariant from <= lastNum <= to && to - lastNum <= blocks && (to - 1 > bodies ==> lastNum == to)
        invariant tail == old(tail) && indexed == before + Range(lastNum, to - 1)
      {
        lastNum := lastNum - 1;
        indexed := indexed + {lastNum};
      }
      tail := Some(lastNum);
    }

    /** Unindexes [from, to) from the bottom up; stops at a missing body, or early after some blocks when
      interrupted. */
    method UnindexTransactions(from: nat, to: nat, bodies: nat, blocks: nat)
      modifies this
      ensures from >= to ==> tail == old(tail) && indexed == old(indexed)
      ensures from < to ==> var next := UnindexedTo(from, to, bodies, blocks);
                            tail == Some(next) && indexed == old(indexed) - Range(from, next - 1)
    {
      if from >= to {
        return;
      }
      var nextNum := from;
      ghost var before := indexed;
      while nextNum < to && nextNum - from < blocks && nextNum <= bodies
        invariant from <= nextNum <= to && nextNum - from <= blocks && (nextNum > from ==> nextNum <= bodies + 1)
        invariant tail == old(tail) && indexed == before - Range(from, nextNum - 1)
      {
        indexed := indexed - {nextNum};
        nextNum := nextNum + 1;
      }
      tail := Some(nextNum);
    }

    ghost predicate Marks(head: nat)
      reads this
    {
      Marked(tail, indexed, head)
    }

    /** A node without a tail has only indexed the blocks it imported itself. */
    ghost predicate NothingStale(head: nat)
      reads this
    {
      Clean(limit, tail, indexed, head)
    }

    /** Brings the index to the range wanted for a head; bodies is the highest number with a body, blocks bounds the
      work done before an interruption. What was indexed below the tail or above the head, and is not wanted, stays
      indexed, so an uninterrupted task leaves exactly the wanted range if and only if there is none.

      A chain that was rewound below the tail is indexed up to the new head when the whole chain is wanted. Otherwise
      the blocks up to the old tail are asked for: they are indexed if the highest of them still has its body, else this
      task does nothing. */
    method RunTask(head: nat, bodies: nat, blocks: nat)
      modifies this
      ensures old(Marks(head)) ==> Marks(head)
      ensures old(Marks(head) && NothingStale(head)) ==> NothingStale(head)
      ensures head == 0 ==> tail == old(tail) && indexed == old(indexed)
      ensures old(Marks(head)) && 0 < head <= bodies && blocks > head ==>
                && tail == Some(Target(limit, head)) && indexed == old(Wanted(limit, tail, indexed, head))
                && (indexed == Range(Target(limit, head), head) <==> old(NothingStale(head)))
      ensures 0 < head <= bodies && old(tail).Some? && old(tail).value > head + 1 && blocks >= old(tail).value ==>
                if limit == 0 || head < limit then
                  tail == Some(0) && indexed == old(indexed) + Range(0, head)
                else if old(tail).value <= bodies + 1 then
                  && tail == Some(Target(limit, head))
                  && indexed == old(indexed) + Range(Target(limit, head), old(tail).value - 1)
                else
                  tail == old(tail) && indexed == old(indexed)
      // When an uninterrupted task brings the tail where it belongs.
      ensures 0 < head <= bodies && blocks > head && (old(tail).Some? ==> blocks >= old(tail).value) ==>
                (tail == Some(Target(limit, head)) <==>
                 old(tail).None? || old(tail).value <= bodies + 1 || limit == 0 || head < limit)
    {
      TaskOutcome(limit, tail, indexed, head, bodies, blocks);
      if 0 < head <= bodies && blocks > head && (tail.Some? ==> blocks >= tail.value) {
        TaskBeyond(limit, tail, indexed, head, bodies, blocks);
      }
      Perform(head, bodies, blocks);
    }

    /** The branches of a task. */
    method Perform(head: nat, bodies: nat, blocks: nat)
      modifies this
      ensures (tail, indexed) == AfterTask(limit, old(tail), old(indexed), head, bodies, blocks)
    {
      if head == 0 {
        return;
      }
      if tail == None {
        var from := 0;
        if limit != 0 && head >= limit {
          from := head - limit + 1;
        }
        IndexTransactions(from, head + 1, bodies, blocks);
        return;
      }
      if limit == 0 || head < limit {
        if tail.value > 0 {
          var end := tail.value;
          if end > head + 1 {
            end := head + 1;
          }
          IndexTransactions(0, end, bodies, blocks);
        }
        return;
      }
      if head - limit + 1 < tail.value {
        IndexTransactions(head - limit + 1, tail.value, bodies, blocks);
      } else {
        UnindexTransactions(tail.value, head - limit + 1, bodies, blocks);
      }
    }

    /** A new block on the head is indexed when it is written. Before the next task that leaves something stale exactly
      when a block indexed below the tail stops being wanted. */
    method NewBlock(head: nat)
      modifies this
      ensures old(Marks(head)) ==> Marks(head + 1)
      ensures tail == old(tail) && indexed == old(indexed) + {head + 1}
      ensures old(NothingStale(head)) ==>
                (NothingStale(head + 1) <==>
                 !(Target(limit, head) < Target(limit, head + 1) && Target(limit, head) in indexed
                   && (tail.Some? ==> Target(limit, head) < tail.value)))
    {
      indexed := indexed + {head + 1};
      assert Target(limit, head + 1) <= Target(limit, head) + 1;
    }
  }

  /** report on 64-bit words. */
  function Report(limit: nat, head: nat, tail: Option<nat>): Progress {
    var total := if limit == 0 || limit > head then head + 1 else limit;
    var indexed := if tail.Some? then (head - tail.value + 1) % TWO_64 else 0;
    Progress(indexed, if indexed < total then total - indexed else 0)
  }

  /** Nothing is reported as remaining if and only if the tail is at or below the target, or, because the count wraps
    around, above the block after the head. */
  lemma ReportDone(limit: nat, head: nat, tail: Option<nat>)
    requires head < MAX_UINT64 && limit <= MAX_UINT64 && (tail.Some? ==> tail.value <= MAX_UINT64)
    ensures Report(limit, head, tail).remaining == 0 <==>
            tail.Some? && (tail.value <= Target(limit, head) || tail.value > head + 1)
  {
    if tail.Some? {
      if tail.value <= head + 1 {
        assert (head - tail.value + 1) % TWO_64 == head + 1 - tail.value;
      } else {
        assert (head - tail.value + 1) % TWO_64 == head + 1 - tail.value + TWO_64;
      }
    }
  }

  /** A node that keeps one block indexed and has imported two before its first task: the first stays indexed. */
  method StaleAfterStart() returns (ti: TxIndexer)
    ensures ti.limit == 1 && ti.tail == Some(Target(1, 2)) && ti.indexed == {1, 2} != Range(Target(1, 2), 2)
  {
    ti := new TxIndexer(1);
    ti.NewBlock(0);
    ti.NewBlock(1);
    ti.RunTask(2, 2, 3);
    assert 1 !in Range(2, 2) && ti.indexed == {1, 2};
  }

  /** A node that keeps the whole chain indexed and was rewound: the entries above the new head stay. */
  method StaleAfterRewind() returns (ti: TxIndexer)
    ensures ti.limit == 0 && ti.tail == Some(0) && ti.indexed == Range(0, 10) != Range(0, 5)
  {
    ti := new TxIndexer(0);
    ti.RunTask(10, 10, 11);
    ti.RunTask(5, 5, 11);
    assert 10 in Range(0, 10) && 10 !in Range(0, 5);
  }

  /** A node that keeps three blocks indexed and was rewound below its tail: the indexing task does nothing although
    none of the wanted blocks is indexed, and nothing remaining is reported. */
  method StuckAfterRewind() returns (ti: TxIndexer)
    ensures ti.limit == 3 && ti.tail == Some(8) && ti.indexed !! Range(Target(3, 5), 5)
    ensures Report(3, 5, ti.tail).remaining == 0
  {
    ti := new TxIndexer(3);
    ti.RunTask(10, 10, 11);
    assert ti.indexed == Range(8, 10);
    ti.RunTask(5, 5, 11);
    ReportDone(3, 5, ti.tail);
  }

  /** Below that, the report counts exactly the indexed blocks and those still missing. */
  lemma ReportCounts(limit: nat, head: nat, tail: nat)
    requires head < MAX_UINT64 && limit <= MAX_UINT64 && Target(limit, head) <= tail <= head + 1
    ensures Report(limit, head, Some(tail)) == Progress(head + 1 - tail, tail - Target(limit, head))
  {
    assert (head - tail + 1) % TWO_64 == head + 1 - tail;
  }
}
