/** Searching backwards for a block whose state is available, in the hash and in the path state scheme. */
module Rewind {
  import opened Wrappers
  import opened Chain

  const FULL_IMMUTABILITY_THRESHOLD: nat := 90000

  /** The oldest number the hash scheme searches: the snap sync pivot, or a fixed distance below the start. */
  function SearchLimit(number: nat, pivot: Option<nat>): nat {
    if pivot.Some? then pivot.value
    else if number > FULL_IMMUTABILITY_THRESHOLD then number - FULL_IMMUTABILITY_THRESHOLD
    else 0
  }

  /** The requested root, if there is one, is the root of one of the headers at most k links back. */
  ghost predicate Crossed(hs: HeaderStore, start: Header, root: Root, k: nat) {
    root == EMPTY_ROOT || exists j: nat :: j <= k && RootAt(hs, start, root, j)
  }

  ghost predicate RootAt(hs: HeaderStore, start: Header, root: Root, j: nat) {
    Back(hs, start, j).Some? && Back(hs, start, j).value.root == root
  }

  /** The header k links back ends a hash-scheme search: it has state, is not below the limit, and the root was
    crossed. */
  ghost predicate HashGoal(hs: HeaderStore, start: Header, states: set<Root>, limit: nat, root: Root, k: nat) {
    && Back(hs, start, k).Some?
    && Back(hs, start, k).value.root in states
    && Back(hs, start, k).value.number >= limit
    && Crossed(hs, start, root, k)
  }

  /** In the path scheme, a root that exists nowhere counts as crossed once any state has been seen. */
  ghost predicate PathCrossed(hs: HeaderStore, start: Header, states: set<Root>, recoverable: set<Root>, root: Root,
                              k: nat)
  {
    || Crossed(hs, start, root, k)
    || (root !in states && root !in recoverable && exists j: nat :: j <= k && StateAt(hs, start, states, j))
  }

  ghost predicate StateAt(hs: HeaderStore, start: Header, states: set<Root>, j: nat) {
    Back(hs, start, j).Some? && Back(hs, start, j).value.root in states
  }

  /** The header k links back ends a path-scheme search. */
  ghost predicate PathGoal(hs: HeaderStore, start: Header, states: set<Root>, recoverable: set<Root>,
                           pivot: Option<nat>, root: Root, k: nat)
  {
    && Back(hs, start, k).Some?
    && Back(hs, start, k).value.root in states + recoverable
    && PathCrossed(hs, start, states, recoverable, root, k)
    && (k == 0 || pivot.None? || Back(hs, start, k).value.number >= pivot.value)
  }

  /** h is the first header back from start that meets the goal of the scheme in use, or genesis when there is none. */
  ghost predicate RewoundTo(hs: HeaderStore, genesis: Header, pathScheme: bool, states: set<Root>,
                            recoverable: set<Root>, pivot: Option<nat>, start: Header, root: Root, h: Header)
  {
    exists steps: nat :: steps <= start.number
      && RewoundBy(hs, genesis, pathScheme, states, recoverable, pivot, start, root, h, steps)
  }

  ghost predicate RewoundBy(hs: HeaderStore, genesis: Header, pathScheme: bool, states: set<Root>,
                            recoverable: set<Root>, pivot: Option<nat>, start: Header, root: Root, h: Header,
                            steps: nat)
  {
    && Back(hs, start, steps) == Some(h)
    && (h == genesis || Goal(hs, pathScheme, states, recoverable, pivot, start, root, steps))
    && forall k: nat | k < steps :: !Goal(hs, pathScheme, states, recoverable, pivot, start, root, k)
  }

  ghost predicate Goal(hs: HeaderStore, pathScheme: bool, states: set<Root>, recoverable: set<Root>, pivot: Option<nat>,
                       start: Header, root: Root, k: nat) {
    if pathScheme then PathGoal(hs, start, states, recoverable, pivot, root, k)
    else HashGoal(hs, start, states, SearchLimit(start.number, pivot), root, k)
  }

  /** The header k links back is not below a number, has state, and lies at or beyond the requested root, if there is
    one. */
  ghost predicate Fallback(hs: HeaderStore, start: Header, states: set<Root>, root: Root, oldest: nat, k: nat) {
    && k <= start.number && start.number - k >= oldest
    && StateAt(hs, start, states, k)
    && (root == EMPTY_ROOT || exists j: nat :: j <= k && RootAt(hs, start, root, j))
  }

  /** h is the first such header back, or genesis when there is none. */
  ghost predicate FirstFallback(hs: HeaderStore, genesis: Header, states: set<Root>, start: Header, root: Root,
                              oldest: nat, h: Header)
  {
    || (h == genesis && forall k: nat :: !Fallback(hs, start, states, root, oldest, k))
    || (exists k: nat :: Fallback(hs, start, states, root, oldest, k) && Back(hs, start, k) == Some(h)
                         && forall j: nat | j < k :: !Fallback(hs, start, states, root, oldest, j))
  }

  /** The first header that meets the hash-scheme goal is the first such one. */
  lemma {:induction false} GoalIsFallback(hs: HeaderStore, genesis: Header, states: set<Root>, start: Header,
                                          root: Root, limit: nat, h: Header, steps: nat)
    requires Closed(hs, genesis) && Stored(hs, start) && steps <= start.number && Back(hs, start, steps) == Some(h)
    requires HashGoal(hs, start, states, limit, root, steps) || h == genesis
    requires forall k: nat | k < steps :: !HashGoal(hs, start, states, limit, root, k)
    ensures FirstFallback(hs, genesis, states, start, root, limit, h)
  {
    forall k: nat ensures Fallback(hs, start, states, root, limit, k) <==> HashGoal(hs, start, states, limit, root, k) {
      BackDefined(hs, genesis, start, k);
    }
    BackDefined(hs, genesis, start, steps);
    if HashGoal(hs, start, states, limit, root, steps) {
      assert Fallback(hs, start, states, root, limit, steps);
    } else {
      assert ClosedAt(hs, genesis, h.hash);
      assert steps == start.number;
    }
  }

  /** What a search finds is on the path to where it starts. */
  lemma RewoundOnPath(hs: HeaderStore, genesis: Header, pathScheme: bool, states: set<Root>, recoverable: set<Root>,
                      pivot: Option<nat>, start: Header, root: Root, h: Header)
    requires Closed(hs, genesis) && Stored(hs, start)
    requires RewoundTo(hs, genesis, pathScheme, states, recoverable, pivot, start, root, h)
    ensures OnPathOf(hs, genesis, start, h)
    ensures h.number == start.number ==> h == start
  {
    var steps: nat :| steps <= start.number
      && RewoundBy(hs, genesis, pathScheme, states, recoverable, pivot, start, root, h, steps);
    BackDefined(hs, genesis, start, steps);
    forall x | x in hs ensures hs[x].hash == x {
      assert ClosedAt(hs, genesis, x);
    }
    BackOnPath(hs, PathTo(hs, genesis, start), start, steps);
  }

  /** The rewind target is determined: whenever some header back meets the goal, it is the first such one. */
  lemma RewoundFirst(hs: HeaderStore, genesis: Header, pathScheme: bool, states: set<Root>, recoverable: set<Root>,
                     pivot: Option<nat>, start: Header, root: Root, h: Header, k: nat)
    requires Closed(hs, genesis) && Stored(hs, start)
    requires RewoundTo(hs, genesis, pathScheme, states, recoverable, pivot, start, root, h)
    requires Goal(hs, pathScheme, states, recoverable, pivot, start, root, k)
    requires forall j: nat | j < k :: !Goal(hs, pathScheme, states, recoverable, pivot, start, root, j)
    ensures Back(hs, start, k) == Some(h)
  {
    var steps: nat :| steps <= start.number
      && RewoundBy(hs, genesis, pathScheme, states, recoverable, pivot, start, root, h, steps);
    BackDefined(hs, genesis, start, k);
    BackDefined(hs, genesis, start, steps);
    if steps < k {
      assert false;
    }
  }

  /** A root number is that of the first header carrying the requested root, or 0. */
  ghost predicate RootNumberOk(hs: HeaderStore, start: Header, root: Root, rootNumber: nat) {
    rootNumber == 0 || exists j: nat :: RootAt(hs, start, root, j) && Back(hs, start, j).value.number == rootNumber
                                   && forall i: nat | i < j :: !RootAt(hs, start, root, i)
  }

  /** The search of RewindHashHead, down to a limit. */
  method SearchHash(hs: HeaderStore, genesis: Header, states: set<Root>, limit: nat, start: Header, root: Root)
    returns (head: Header, rootNumber: nat, ghost steps: nat)
    requires Closed(hs, genesis) && Stored(hs, start)
    ensures steps <= start.number && Back(hs, start, steps) == Some(head)
    ensures HashGoal(hs, start, states, limit, root, steps) || head == genesis
    ensures forall k: nat | k < steps :: !HashGoal(hs, start, states, limit, root, k)
    ensures head.root in states || head.number == 0
    ensures RootNumberOk(hs, start, root, rootNumber)
    ensures head.number > 0 && root != EMPTY_ROOT ==> head.number <= rootNumber <= start.number
    ensures head.number > 0 && root != EMPTY_ROOT ==> RootAt(hs, start, root, start.number - rootNumber)
  {
    var beyondRoot := root == EMPTY_ROOT;
    rootNumber := 0;
    head := start;
    ghost var k: nat := 0;
    BackDefined(hs, genesis, start, start.number);
    while true
      invariant Stored(hs, head) && Back(hs, start, k) == Some(head) && k + head.number == start.number
      invariant forall i: nat | i < k :: !HashGoal(hs, start, states, limit, root, i)
      invariant beyondRoot <==> root == EMPTY_ROOT || exists j: nat :: j < k && RootAt(hs, start, root, j)
      invariant RootNumberOk(hs, start, root, rootNumber)
      invariant root != EMPTY_ROOT && beyondRoot ==>
          head.number < rootNumber <= start.number && RootAt(hs, start, root, start.number - rootNumber)
      invariant !beyondRoot ==> rootNumber == 0
      decreases head.number
    {
      if !beyondRoot && head.root == root {
        beyondRoot, rootNumber := true, head.number;
        assert RootAt(hs, start, root, k);
      }
      assert beyondRoot <==> Crossed(hs, start, root, k);
      if head.number < limit {
        BelowLimit(hs, genesis, start, states, limit, root, k);
        BackDefined(hs, genesis, start, start.number);
        GenesisBack(hs, genesis, start);
        return genesis, rootNumber, start.number;
      }
      BackStep(hs, start, k);
      NoParent(hs, genesis, head);
      var parent := GetHeader(hs, head.parent, head.number - 1);
      if head.root !in states {
        if parent.None? {
          return genesis, rootNumber, k;
        }
        head, k := parent.value, k + 1;
        if head.number == 0 {
          GenesisBack(hs, genesis, start);
          return head, rootNumber, k;
        }
        continue;
      }
      if beyondRoot || head.number == 0 {
        return head, rootNumber, k;
      }
      head, k := parent.value, k + 1;
    }
  }

  /** Finds the first header back from start that meets the hash-scheme goal, else genesis. */
  method RewindHashHead(hs: HeaderStore, genesis: Header, states: set<Root>, pivot: Option<nat>, start: Header,
                        root: Root)
    returns (head: Header, rootNumber: nat, ghost steps: nat)
    requires Closed(hs, genesis) && Stored(hs, start)
    ensures steps <= start.number && Back(hs, start, steps) == Some(head)
    ensures HashGoal(hs, start, states, SearchLimit(start.number, pivot), root, steps) || head == genesis
    ensures forall k: nat | k < steps :: !HashGoal(hs, start, states, SearchLimit(start.number, pivot), root, k)
    // The search goes back to the pivot, or, without one, over the last 90000 blocks.
    ensures pivot.None? ==>
              FirstFallback(hs, genesis, states, start, root, if start.number > 90000 then start.number - 90000 else 0,
                            head)
    ensures pivot.Some? ==> FirstFallback(hs, genesis, states, start, root, pivot.value, head)
    ensures head.root in states || head.number == 0
    ensures RootNumberOk(hs, start, root, rootNumber)
    ensures head.number > 0 && root != EMPTY_ROOT ==> head.number <= rootNumber <= start.number
    ensures head.number > 0 && root != EMPTY_ROOT ==> RootAt(hs, start, root, start.number - rootNumber)
  {
    var limit := SearchLimit(start.number, pivot);
    head, rootNumber, steps := SearchHash(hs, genesis, states, limit, start, root);
    GoalIsFallback(hs, genesis, states, start, root, limit, head, steps);
  }

  /** Only genesis has no stored parent. */
  lemma NoParent(hs: HeaderStore, genesis: Header, h: Header)
    requires Closed(hs, genesis) && Stored(hs, h)
    ensures GetHeader(hs, h.parent, h.number - 1).None? <==> h.number == 0
    ensures h.number == 0 ==> h == genesis
    ensures h.number > 0 ==> Stored(hs, GetHeader(hs, h.parent, h.number - 1).value)
  {
    assert ClosedAt(hs, genesis, h.hash);
    if h.number > 0 {
      assert Stored(hs, Parent(hs, genesis, h));
    }
  }

  /** The last header back from any stored header is genesis. */
  lemma GenesisBack(hs: HeaderStore, genesis: Header, start: Header)
    requires Closed(hs, genesis) && Stored(hs, start)
    ensures Back(hs, start, start.number) == Some(genesis)
  {
    BackDefined(hs, genesis, start, start.number);
    NoParent(hs, genesis, Back(hs, start, start.number).value);
  }

  /** Once a header is below the limit, no later one meets the goal. */
  lemma BelowLimit(hs: HeaderStore, genesis: Header, start: Header, states: set<Root>, limit: nat, root: Root, k: nat)
    requires Closed(hs, genesis) && Stored(hs, start) && k <= start.number && start.number - k < limit
    ensures forall i: nat | i >= k :: !HashGoal(hs, start, states, limit, root, i)
  {
    forall i: nat | i >= k ensures !HashGoal(hs, start, states, limit, root, i) {
      BackDefined(hs, genesis, start, i);
    }
  }

  /** Finds the first header back from start that meets the path-scheme goal, else genesis; recovers its state. */
  method RewindPathHead(hs: HeaderStore, genesis: Header, states: set<Root>, recoverable: set<Root>, pivot: Option<nat>,
                        start: Header, root: Root)
    returns (head: Header, rootNumber: nat, states': set<Root>, ghost steps: nat)
    requires Closed(hs, genesis) && Stored(hs, start)
    ensures steps <= start.number && Back(hs, start, steps) == Some(head)
    ensures PathGoal(hs, start, states, recoverable, pivot, root, steps) || head == genesis
    ensures forall k: nat | k < steps :: !PathGoal(hs, start, states, recoverable, pivot, root, k)
    ensures head.root in states' || head.number == 0
    ensures states' == states || (head.root in recoverable && head.root !in states && states' == {head.root})
    ensures RootNumberOk(hs, start, root, rootNumber)
  {
    var beyondRoot := root == EMPTY_ROOT;
    var noState := root !in states && root !in recoverable;
    rootNumber := 0;
    head := start;
    ghost var k: nat := 0;
    BackDefined(hs, genesis, start, start.number);
    GenesisBack(hs, genesis, start);
    while true
      invariant Stored(hs, head) && Back(hs, start, k) == Some(head) && k + head.number == start.number
      invariant forall i: nat | i < k :: !PathGoal(hs, start, states, recoverable, pivot, root, i)
      invariant k > 0 && pivot.Some? ==> pivot.value <= head.number
      invariant beyondRoot <==> root == EMPTY_ROOT || (exists j: nat :: j < k && RootAt(hs, start, root, j))
                                || (noState && exists j: nat :: j < k && StateAt(hs, start, states, j))
      invariant RootNumberOk(hs, start, root, rootNumber)
      invariant !beyondRoot ==> rootNumber == 0
      decreases head.number
    {
      if !beyondRoot && head.root == root {
        beyondRoot, rootNumber := true, head.number;
        assert RootAt(hs, start, root, k);
      }
      if !beyondRoot && noState && head.root in states {
        beyondRoot := true;
        assert StateAt(hs, start, states, k);
      }
      assert beyondRoot <==> PathCrossed(hs, start, states, recoverable, root, k);
      if beyondRoot && (head.root in states || head.root in recoverable) {
        break;
      }
      if pivot.Some? && pivot.value >= head.number {
        BelowPivot(hs, genesis, start, states, recoverable, pivot, root, k);
        return genesis, rootNumber, states, start.number;
      }
      BackStep(hs, start, k);
      NoParent(hs, genesis, head);
      var parent := GetHeader(hs, head.parent, head.number - 1);
      if parent.None? {
        return genesis, rootNumber, states, k;
      }
      head, k := parent.value, k + 1;
      if head.number == 0 {
        return head, rootNumber, states, k;
      }
    }
    // Recovering a state rolls the state database back to it.
    states' := if head.root in states then states else {head.root};
    steps := k;
  }

  /** Once a header that is not a goal is at or below the pivot, no later one meets the goal. */
  lemma BelowPivot(hs: HeaderStore, genesis: Header, start: Header, states: set<Root>, recoverable: set<Root>,
                   pivot: Option<nat>, root: Root, k: nat)
    requires Closed(hs, genesis) && Stored(hs, start) && k <= start.number && pivot.Some?
             && pivot.value >= start.number - k
    ensures forall i: nat | i > k :: !PathGoal(hs, start, states, recoverable, pivot, root, i)
  {
    forall i: nat | i > k ensures !PathGoal(hs, start, states, recoverable, pivot, root, i) {
      BackDefined(hs, genesis, start, i);
    }
  }
}
