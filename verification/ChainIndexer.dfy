/** The chain indexer: sections of the canonical chain are processed with the lock released, while the chain may
  reorganise underneath. Every locked region and every database read is one atomic step; a run is any sequence of
  steps, each seeing an arbitrary chain database. Checkpoints and child indexers are not part of the model. */
module ChainIndexers {
  import opened Wrappers
  import opened Chain

  /** What the update loop is doing. Running(section, oldHead, next, lastHead) has processed the section's blocks
    below next; Finished carries the new section head, or None after an error. */
  datatype Job =
    | Idle
    | Resetting(section: nat, oldHead: Hash)
    | Running(section: nat, oldHead: Hash, next: nat, lastHead: Hash)
    | Finished(section: nat, oldHead: Hash, newHead: Option<Hash>)

  /** The indexer's counters, the section heads of its index database, and the state of its update loop. */
  datatype State = State(stored: nat, known: nat, heads: map<nat, Hash>, job: Job)

  datatype Config = Config(sectionSize: nat, confirms: nat)

  /** The chain index as a verification finds it at each of its reads, by the number of sections it then compares the
    last of. The indexer's lock does not keep the chain from changing between two of them. */
  type Views = nat -> CanonIndex

  /** One atomic step; chain arguments are what the step reads from the chain database. */
  datatype Event =
    | NewHead(head: nat, reorg: bool)
    | Verify(views: Views)
    | Begin(views: Views)
    | Reset(ok: bool)
    | Process(canon: CanonIndex, headers: HeaderStore, ok: bool)
    | Finish(views: Views)

  const EMPTY_STATE: State := State(0, 0, map[], Idle)

  /** A section's stored head, or the zero hash. */
  function SectionHead(s: State, section: int): Hash {
    if section >= 0 && section in s.heads then s.heads[section] else ZERO_HASH
  }

  /** setValidSections: the section counter becomes n and the heads of dropped sections go. */
  function SetValidSections(s: State, n: nat): State {
    s.(stored := n, heads := map k | k in s.heads && !(n <= k < s.stored) :: s.heads[k])
  }

  /** verifyLastHead: drops sections from the top until the last one's head is canonical. */
  function VerifyLastHead(s: State, c: Config, views: Views): (r: State)
    requires c.sectionSize > 0
    decreases s.stored
  {
    if s.stored == 0 || LastMatches(s, c, views(s.stored)) then s
    else VerifyLastHead(SetValidSections(s, s.stored - 1), c, views)
  }

  /** The last stored head is the canonical hash at the section's end. */
  predicate LastMatches(s: State, c: Config, canon: CanonIndex)
    requires c.sectionSize > 0 && s.stored > 0
  {
    SectionHead(s, s.stored - 1) == ReadCanonicalHash(canon, s.stored * c.sectionSize - 1)
  }

  function OnNewHead(s: State, c: Config, head: nat, reorg: bool): State
    requires c.sectionSize > 0
  {
    if reorg then
      var known := (head + 1) / c.sectionSize;
      var s1 := if known < s.known then s.(known := known) else s;
      if known < s.stored then SetValidSections(s1, known) else s1
    else
      var sections := if head >= c.confirms then (head + 1 - c.confirms) / c.sectionSize else 0;
      if sections > s.known then s.(known := sections) else s
  }

  /** The locked region that picks the next section. */
  function OnBegin(s: State, c: Config, views: Views): State
    requires c.sectionSize > 0
  {
    if s.job != Idle || s.known <= s.stored then s
    else
      var v := VerifyLastHead(s, c, views);
      v.(job := Resetting(v.stored, SectionHead(v, v.stored - 1)))
  }

  function OnReset(s: State, c: Config, ok: bool): State {
    match s.job
    case Resetting(section, oldHead) =>
      if ok then s.(job := Running(section, oldHead, section * c.sectionSize, oldHead))
      else SetValidSections(s, 0).(job := Finished(section, oldHead, None))
    case _ => s
  }

  /** One iteration of processSection's loop, or its final commit; ok is the backend's answer. */
  function OnProcess(s: State, c: Config, canon: CanonIndex, headers: HeaderStore, ok: bool): State {
    match s.job
    case Running(section, oldHead, next, lastHead) =>
      if next == (section + 1) * c.sectionSize then
        s.(job := Finished(section, oldHead, if ok then Some(lastHead) else None))
      else
        var hash := ReadCanonicalHash(canon, next);
        var header := GetHeader(headers, hash, next);
        if hash != ZERO_HASH && header.Some? && header.value.parent == lastHead && ok
        then s.(job := Running(section, oldHead, next + 1, header.value.hash))
        else s.(job := Finished(section, oldHead, None))
    case _ => s
  }

  /** The locked region that stores a processed section if no reorg touched its predecessor. */
  function OnFinish(s: State, c: Config, views: Views): State
    requires c.sectionSize > 0
  {
    match s.job
    case Finished(section, oldHead, newHead) =>
      if newHead.Some? && (section == 0 || oldHead == SectionHead(s, section - 1))
      then SetValidSections(s.(heads := s.heads[section := newHead.value]), section + 1).(job := Idle)
      else
        var v := VerifyLastHead(s, c, views);
        v.(known := v.stored, job := Idle)
    case _ => s
  }

  function Next(s: State, c: Config, e: Event): State
    requires c.sectionSize > 0
  {
    match e
    case NewHead(head, reorg) => OnNewHead(s, c, head, reorg)
    case Verify(views) => VerifyLastHead(s, c, views)
    case Begin(views) => OnBegin(s, c, views)
    case Reset(ok) => OnReset(s, c, ok)
    case Process(canon, headers, ok) => OnProcess(s, c, canon, headers, ok)
    case Finish(views) => OnFinish(s, c, views)
  }

  function Run(s: State, c: Config, events: seq<Event>): State
    requires c.sectionSize > 0
  {
    if events == [] then s else Next(Run(s, c, events[..|events| - 1]), c, events[|events| - 1])
  }

  // ----- The invariant -----

  /** All headers that ever existed, by hash: distinct headers never share a hash. */
  ghost predicate Universe(all: HeaderStore) {
    forall h {:trigger all[h]} | h in all :: all[h].hash == h && h != ZERO_HASH
  }

  /** A chain database read returns only headers that exist. */
  ghost predicate ReadsFrom(e: Event, all: HeaderStore) {
    e.Process? ==> forall h {:trigger e.headers[h]} | h in e.headers :: h in all && all[h] == e.headers[h]
  }

  /** The hash n parent links below a hash. */
  ghost function Ancestor(all: HeaderStore, hash: Hash, n: nat): Option<Hash>
    decreases n
  {
    if n == 0 then Some(hash) else if hash in all then Ancestor(all, all[hash].parent, n - 1) else None
  }

  /** Head ends a section: it is the header at the section's last number, a section above prev. */
  ghost predicate SectionEnd(all: HeaderStore, c: Config, section: nat, head: Hash, prev: Hash) {
    && head in all && all[head].number == (section + 1) * c.sectionSize - 1
    && Ancestor(all, head, c.sectionSize) == Some(prev)
  }

  /** Stored head k is the section-size-th descendant of stored head k - 1, or of nothing when k is 0. */
  ghost predicate HeadAt(all: HeaderStore, c: Config, s: State, k: nat) {
    SectionEnd(all, c, k, SectionHead(s, k), SectionHead(s, k - 1))
  }

  /** Exactly the stored sections have heads, and these form one hash chain. */
  ghost predicate HeadsChained(all: HeaderStore, c: Config, s: State) {
    && (forall k :: k in s.heads <==> 0 <= k < s.stored)
    && (forall k: nat {:trigger HeadAt(all, c, s, k)} | k < s.stored :: HeadAt(all, c, s, k))
  }

  ghost predicate JobOk(all: HeaderStore, c: Config, s: State) {
    match s.job
    case Idle => true
    case Resetting(section, oldHead) => s.stored <= section && (section == 0 <==> oldHead == ZERO_HASH)
    case Running(section, oldHead, next, lastHead) =>
      && s.stored <= section && (section == 0 <==> oldHead == ZERO_HASH)
      && section * c.sectionSize <= next <= (section + 1) * c.sectionSize
      && Ancestor(all, lastHead, next - section * c.sectionSize) == Some(oldHead)
      && (next > section * c.sectionSize ==> lastHead in all && all[lastHead].number == next - 1)
    case Finished(section, oldHead, newHead) =>
      && s.stored <= section && (section == 0 <==> oldHead == ZERO_HASH)
      && (newHead.Some? ==> SectionEnd(all, c, section, newHead.value, oldHead))
  }

  ghost predicate Inv(all: HeaderStore, c: Config, s: State) {
    HeadsChained(all, c, s) && JobOk(all, c, s)
  }

  /** r is s with fewer sections. */
  ghost predicate Cut(s: State, r: State) {
    && r.stored <= s.stored && r.known == s.known && r.job == s.job
    && forall k: nat | k < r.stored :: SectionHead(r, k) == SectionHead(s, k)
  }

  lemma CutJob(all: HeaderStore, c: Config, s: State, r: State)
    requires Cut(s, r) && JobOk(all, c, s)
    ensures JobOk(all, c, r)
  {
  }

  lemma SetValidKeeps(all: HeaderStore, c: Config, s: State, n: nat)
    requires HeadsChained(all, c, s) && n <= s.stored
    ensures HeadsChained(all, c, SetValidSections(s, n)) && Cut(s, SetValidSections(s, n))
  {
    var r := SetValidSections(s, n);
    forall k: nat | k < n ensures HeadAt(all, c, r, k) {
      assert HeadAt(all, c, s, k);
    }
  }

  /** One round of a verification. */
  lemma VerifyStep(s: State, c: Config, views: Views)
    requires c.sectionSize > 0 && s.stored > 0
    ensures VerifyLastHead(s, c, views) ==
            if LastMatches(s, c, views(s.stored)) then s
               else VerifyLastHead(SetValidSections(s, s.stored - 1), c, views)
  {
  }

  lemma SetValidAgain(s: State, n: nat, m: nat)
    requires m <= n <= s.stored
    ensures SetValidSections(SetValidSections(s, n), m) == SetValidSections(s, m)
    ensures SetValidSections(s, s.stored) == s
  {
  }

  /** A verification only shortens the stored sections. */
  lemma {:induction false} VerifyCuts(s: State, c: Config, views: Views)
    requires c.sectionSize > 0
    ensures var r := VerifyLastHead(s, c, views); r.stored <= s.stored && r == SetValidSections(s, r.stored)
    decreases s.stored
  {
    if s.stored == 0 || LastMatches(s, c, views(s.stored)) {
      SetValidAgain(s, s.stored, s.stored);
    } else {
      VerifyStep(s, c, views);
      VerifyCuts(SetValidSections(s, s.stored - 1), c, views);
      SetValidAgain(s, s.stored - 1, VerifyLastHead(s, c, views).stored);
    }
  }

  lemma VerifyKeeps(all: HeaderStore, c: Config, s: State, views: Views)
    requires HeadsChained(all, c, s) && c.sectionSize > 0
    ensures HeadsChained(all, c, VerifyLastHead(s, c, views)) && Cut(s, VerifyLastHead(s, c, views))
  {
    VerifyCuts(s, c, views);
    SetValidKeeps(all, c, s, VerifyLastHead(s, c, views).stored);
  }

  /** A head of a section is a header, so never the zero hash. */
  lemma HeadNonZero(all: HeaderStore, c: Config, s: State, k: nat)
    requires HeadsChained(all, c, s) && Universe(all) && k < s.stored
    ensures SectionHead(s, k) != ZERO_HASH
  {
    assert HeadAt(all, c, s, k) && all[SectionHead(s, k)].hash == SectionHead(s, k);
  }

  lemma FinishKeeps(all: HeaderStore, c: Config, s: State, views: Views)
    requires Inv(all, c, s) && Universe(all) && c.sectionSize > 0
    ensures Inv(all, c, OnFinish(s, c, views))
  {
    if s.job.Finished? {
      if s.job.newHead.Some? && (s.job.section == 0 || s.job.oldHead == SectionHead(s, s.job.section - 1)) {
        StoreKeeps(all, c, s, OnFinish(s, c, views));
      } else {
        VerifyKeeps(all, c, s, views);
        var v := VerifyLastHead(s, c, views);
        SameHeads(all, c, v, v.(known := v.stored, job := Idle));
      }
    }
  }

  /** Storing a section on the untouched head of its predecessor extends the chain. */
  lemma StoreKeeps(all: HeaderStore, c: Config, s: State, r: State)
    requires Inv(all, c, s) && s.job.Finished? && s.job.newHead.Some?
    requires s.job.section == 0 || s.job.oldHead == SectionHead(s, s.job.section - 1)
    requires r == SetValidSections(s.(heads := s.heads[s.job.section := s.job.newHead.value]),
                                   s.job.section + 1).(job := Idle)
    ensures Inv(all, c, r)
  {
    var section := s.job.section;
    assert s.stored == section;
    forall k: nat | k < r.stored ensures HeadAt(all, c, r, k) {
      if k < section {
        assert HeadAt(all, c, s, k);
      }
    }
  }

  lemma ProcessKeeps(all: HeaderStore, c: Config, s: State, e: Event)
    requires Inv(all, c, s) && Universe(all) && c.sectionSize > 0 && e.Process? && ReadsFrom(e, all)
    ensures Inv(all, c, Next(s, c, e))
  {
    var r := Next(s, c, e);
    forall k: nat | k < r.stored ensures HeadAt(all, c, r, k) {
      assert HeadAt(all, c, s, k);
    }
    if s.job.Running? {
      var section := s.job.section;
      assert (section + 1) * c.sectionSize - section * c.sectionSize == c.sectionSize;
      if r.job.Running? {
        var hash := ReadCanonicalHash(e.canon, s.job.next);
        assert e.headers[hash] == all[hash];
        assert Ancestor(all, hash, s.job.next + 1 - section * c.sectionSize) ==
               Ancestor(all, s.job.lastHead, s.job.next - section * c.sectionSize);
      }
    }
  }

  lemma NewHeadKeeps(all: HeaderStore, c: Config, s: State, head: nat, reorg: bool)
    requires Inv(all, c, s) && c.sectionSize > 0
    ensures Inv(all, c, OnNewHead(s, c, head, reorg))
  {
    var known := (head + 1) / c.sectionSize;
    if reorg {
      var s1 := if known < s.known then s.(known := known) else s;
      SameHeads(all, c, s, s1);
      if known < s.stored {
        SetValidKeeps(all, c, s1, known);
        CutJob(all, c, s1, SetValidSections(s1, known));
      }
    } else {
      SameHeads(all, c, s, OnNewHead(s, c, head, reorg));
    }
  }

  lemma VerifyInv(all: HeaderStore, c: Config, s: State, views: Views)
    requires Inv(all, c, s) && c.sectionSize > 0
    ensures Inv(all, c, VerifyLastHead(s, c, views))
  {
    VerifyKeeps(all, c, s, views);
    CutJob(all, c, s, VerifyLastHead(s, c, views));
  }

  lemma BeginKeeps(all: HeaderStore, c: Config, s: State, views: Views)
    requires Inv(all, c, s) && Universe(all) && c.sectionSize > 0
    ensures Inv(all, c, OnBegin(s, c, views))
  {
    VerifyKeeps(all, c, s, views);
    var v := VerifyLastHead(s, c, views);
    if v.stored > 0 {
      HeadNonZero(all, c, v, v.stored - 1);
    }
    SameHeads(all, c, v, v.(job := Resetting(v.stored, SectionHead(v, v.stored - 1))));
  }

  lemma ResetKeeps(all: HeaderStore, c: Config, s: State, ok: bool)
    requires Inv(all, c, s) && c.sectionSize > 0
    ensures Inv(all, c, OnReset(s, c, ok))
  {
    if s.job.Resetting? {
      var r := OnReset(s, c, ok);
      if ok {
        SameHeads(all, c, s, r);
        assert Ancestor(all, s.job.oldHead, 0) == Some(s.job.oldHead);
      } else {
        SetValidKeeps(all, c, s, 0);
        SameHeads(all, c, SetValidSections(s, 0), r);
      }
    }
  }

  lemma StepKeeps(all: HeaderStore, c: Config, s: State, e: Event)
    requires Inv(all, c, s) && Universe(all) && c.sectionSize > 0 && ReadsFrom(e, all)
    ensures Inv(all, c, Next(s, c, e))
  {
    match e
    case NewHead(head, reorg) => NewHeadKeeps(all, c, s, head, reorg);
    case Verify(views) => VerifyInv(all, c, s, views);
    case Begin(views) => BeginKeeps(all, c, s, views);
    case Reset(ok) => ResetKeeps(all, c, s, ok);
    case Process(canon, headers, ok) => ProcessKeeps(all, c, s, e);
    case Finish(views) => FinishKeeps(all, c, s, views);
  }

  lemma SameHeads(all: HeaderStore, c: Config, s: State, r: State)
    requires HeadsChained(all, c, s) && r.heads == s.heads && r.stored == s.stored
    ensures HeadsChained(all, c, r)
  {
    forall k: nat | k < r.stored ensures HeadAt(all, c, r, k) {
      assert HeadAt(all, c, s, k);
    }
  }

  /** In every reachable interleaving the stored section heads form one hash chain. */
  lemma {:induction false} RunKeeps(all: HeaderStore, c: Config, events: seq<Event>)
    requires Universe(all) && c.sectionSize > 0 && forall e | e in events :: ReadsFrom(e, all)
    ensures Inv(all, c, Run(EMPTY_STATE, c, events))
  {
    if events != [] {
      RunKeeps(all, c, events[..|events| - 1]);
      StepKeeps(all, c, Run(EMPTY_STATE, c, events[..|events| - 1]), events[|events| - 1]);
    }
  }

  // ----- Confirmed sections -----

  /** The first k sections, with a number of confirmations on top, end at or below a head. */
  ghost predicate EndBy(c: Config, k: nat, confirms: nat, head: nat) {
    k * c.sectionSize + confirms <= head + 1
  }

  /** Counting whole sections: k of them fit if and only if k is at most the quotient. */
  lemma {:induction false} Fits(size: nat, n: nat, k: nat)
    requires size > 0
    ensures k * size <= n <==> k <= n / size
  {
    var q := n / size;
    assert q * size <= n < (q + 1) * size;
    MulMonotone(k, q, size);
    MulMonotone(q + 1, k, size);
  }

  /** A head was noticed that had the first k sections and the confirmations asked for. */
  ghost predicate Confirmed(c: Config, events: seq<Event>, k: nat) {
    k == 0 || exists i :: 0 <= i < |events| && ConfirmedBy(c, events[i], k)
  }

  ghost predicate ConfirmedBy(c: Config, e: Event, k: nat) {
    e.NewHead? && !e.reorg && EndBy(c, k, c.confirms, e.head)
  }

  /** The section an update loop is busy with. */
  ghost function Busy(s: State): nat {
    match s.job
    case Idle => 0
    case Resetting(section, _) => section + 1
    case Running(section, _, _, _) => section + 1
    case Finished(section, _, _) => section + 1
  }

  lemma {:induction false} FewerConfirmed(c: Config, events: seq<Event>, k: nat, n: nat)
    requires Confirmed(c, events, n) && k <= n
    ensures Confirmed(c, events, k)
  {
    if k > 0 {
      var i :| 0 <= i < |events| && ConfirmedBy(c, events[i], n);
      MulMonotone(k, n, c.sectionSize);
      assert ConfirmedBy(c, events[i], k);
    }
  }

  lemma {:induction false} StillConfirmed(c: Config, events: seq<Event>, e: Event, k: nat)
    requires Confirmed(c, events, k)
    ensures Confirmed(c, events + [e], k)
  {
    if k > 0 {
      var i :| 0 <= i < |events| && ConfirmedBy(c, events[i], k);
      assert (events + [e])[i] == events[i];
    }
  }

  ghost predicate AllConfirmed(c: Config, events: seq<Event>, s: State) {
    Confirmed(c, events, s.known) && Confirmed(c, events, s.stored) && Confirmed(c, events, Busy(s))
  }

  lemma {:induction false} ConfirmedHead(c: Config, events: seq<Event>, s: State, e: Event)
    requires c.sectionSize > 0 && e.NewHead? && AllConfirmed(c, events + [e], s)
    ensures AllConfirmed(c, events + [e], OnNewHead(s, c, e.head, e.reorg))
  {
    var r, more := OnNewHead(s, c, e.head, e.reorg), events + [e];
    if e.reorg {
      FewerConfirmed(c, more, r.known, s.known);
      FewerConfirmed(c, more, r.stored, s.stored);
    } else if r.known != s.known {
      Fits(c.sectionSize, e.head + 1 - c.confirms, r.known);
      assert more[|events|] == e && ConfirmedBy(c, e, r.known);
    }
  }

  /** No step makes a section known, stored or worked on that no noticed head had confirmed. */
  lemma {:induction false} ConfirmedStep(c: Config, events: seq<Event>, s: State, e: Event)
    requires c.sectionSize > 0 && AllConfirmed(c, events, s)
    ensures AllConfirmed(c, events + [e], Next(s, c, e))
  {
    var r := Next(s, c, e);
    var more := events + [e];
    StillConfirmed(c, events, e, s.known);
    StillConfirmed(c, events, e, s.stored);
    StillConfirmed(c, events, e, Busy(s));
    match e
    case NewHead(head, reorg) => ConfirmedHead(c, events, s, e);
    case Verify(views) =>
      VerifyCuts(s, c, views);
      FewerConfirmed(c, more, r.stored, s.stored);
    case Begin(views) =>
      VerifyCuts(s, c, views);
      FewerConfirmed(c, more, r.stored, s.stored);
      if r.job != s.job {
        FewerConfirmed(c, more, r.stored + 1, s.known);
      }
    case Reset(ok) =>
    case Process(canon, headers, ok) =>
    case Finish(views) =>
      VerifyCuts(s, c, views);
      FewerConfirmed(c, more, VerifyLastHead(s, c, views).stored, s.stored);
  }

  /** In every run each known or stored section, and the one worked on, ended with its confirmations at or below some
    head noticed. */
  lemma {:induction false} RunConfirmed(c: Config, events: seq<Event>)
    requires c.sectionSize > 0
    ensures AllConfirmed(c, events, Run(EMPTY_STATE, c, events))
  {
    if events != [] {
      var init, e := events[..|events| - 1], events[|events| - 1];
      RunConfirmed(c, init);
      ConfirmedStep(c, init, Run(EMPTY_STATE, c, init), e);
      assert events == init + [e];
    }
  }

  // ----- Canonical sections -----

  /** Walking down a linked path from one of its entries reads its lower entries. */
  lemma {:induction false} AncestorOnPath(all: HeaderStore, canon: CanonIndex, top: nat, n: nat, k: nat)
    requires PathUpTo(all, canon, top) && k <= n <= top
    ensures Ancestor(all, canon[n], k) == Some(canon[n - k])
    decreases k
  {
    assert LinkedAt(all, canon, n);
    if k > 0 {
      AncestorOnPath(all, canon, top, n - 1, k - 1);
    }
  }

  ghost predicate SectionCanonical(c: Config, s: State, canon: CanonIndex, k: nat)
    requires c.sectionSize > 0
  {
    SectionHead(s, k) == ReadCanonicalHash(canon, (k + 1) * c.sectionSize - 1)
  }

  /** When a section head is canonical and the index is linked below it, so are all earlier section heads. */
  lemma {:induction false} CanonicalBelow(all: HeaderStore, c: Config, s: State, canon: CanonIndex, top: nat, j: nat,
                                          k: nat)
    requires HeadsChained(all, c, s) && c.sectionSize > 0 && j <= k < s.stored
    requires PathUpTo(all, canon, top) && (k + 1) * c.sectionSize - 1 <= top && SectionCanonical(c, s, canon, k)
    ensures SectionCanonical(c, s, canon, j)
    decreases k - j
  {
    if j < k {
      assert HeadAt(all, c, s, k);
      var n := (k + 1) * c.sectionSize - 1;
      assert n - c.sectionSize == k * c.sectionSize - 1;
      assert k * c.sectionSize >= c.sectionSize;
      AncestorOnPath(all, canon, top, n, c.sectionSize);
      CanonicalBelow(all, c, s, canon, top, j, k - 1);
    }
  }

  lemma AllCanonical(all: HeaderStore, c: Config, s: State, canon: CanonIndex, head: Header)
    requires HeadsChained(all, c, s) && c.sectionSize > 0 && Universe(all) && CanonicalTo(all, canon, head)
    requires s.stored > 0 && LastMatches(s, c, canon)
    ensures forall k: nat | k < s.stored :: SectionCanonical(c, s, canon, k)
  {
    var last := s.stored - 1;
    HeadNonZero(all, c, s, last);
    assert SectionCanonical(c, s, canon, last);
    assert (last + 1) * c.sectionSize - 1 in canon;
    forall k: nat | k < s.stored ensures SectionCanonical(c, s, canon, k) {
      CanonicalBelow(all, c, s, canon, head.number, k, last);
    }
  }

  /** A verification ends without sections, or with a last head that was canonical when it was read. */
  lemma {:induction false} VerifyMatches(s: State, c: Config, views: Views)
    requires c.sectionSize > 0
    ensures var r := VerifyLastHead(s, c, views);
            && r.stored <= s.stored
            && (r.stored > 0 ==> LastMatches(r, c, views(r.stored)))
    decreases s.stored
  {
    if s.stored != 0 && !LastMatches(s, c, views(s.stored)) {
      VerifyMatches(SetValidSections(s, s.stored - 1), c, views);
    }
  }

  /** When verification came to section k, its head was not the canonical hash at its end. */
  ghost predicate Dropped(c: Config, s: State, views: Views, k: nat)
    requires c.sectionSize > 0
  {
    SectionHead(s, k) != ReadCanonicalHash(views(k + 1), (k + 1) * c.sectionSize - 1)
  }

  /** A verification stops at the first section from the top whose head is canonical, and keeps all below. */
  ghost predicate Verified(c: Config, s: State, views: Views, r: State)
    requires c.sectionSize > 0
  {
    && r.stored <= s.stored && r.known == s.known && r.job == s.job
    && (forall k: nat | r.stored <= k < s.stored :: Dropped(c, s, views, k))
    && (r.stored > 0 ==> !Dropped(c, s, views, r.stored - 1))
    && (forall k: nat | k < r.stored :: SectionHead(r, k) == SectionHead(s, k))
    && (forall k | k in r.heads :: k in s.heads && !(r.stored <= k < s.stored))
  }

  lemma {:induction false} VerifyIs(s: State, c: Config, views: Views)
    requires c.sectionSize > 0
    ensures Verified(c, s, views, VerifyLastHead(s, c, views))
    decreases s.stored
  {
    if s.stored != 0 {
      VerifyStep(s, c, views);
      if !LastMatches(s, c, views(s.stored)) {
        var cut := SetValidSections(s, s.stored - 1);
        VerifyIs(cut, c, views);
        VerifiedMore(c, s, views, cut, VerifyLastHead(cut, c, views));
      }
    }
  }

  lemma {:induction false} VerifiedMore(c: Config, s: State, views: Views, cut: State, r: State)
    requires c.sectionSize > 0 && s.stored > 0 && cut == SetValidSections(s, s.stored - 1)
    requires Verified(c, cut, views, r) && Dropped(c, s, views, s.stored - 1)
    ensures Verified(c, s, views, r)
  {
    forall k: nat | r.stored <= k < s.stored ensures Dropped(c, s, views, k) {
      assert k < s.stored - 1 ==> Dropped(c, cut, views, k);
    }
  }

  /** verifyLastHead keeps exactly the sections whose head is canonical, whenever all its reads find the same linked
    path. */
  lemma {:induction false} VerifyExact(all: HeaderStore, c: Config, s: State, views: Views, canon: CanonIndex,
                                       head: Header, k: nat)
    requires HeadsChained(all, c, s) && c.sectionSize > 0 && Universe(all) && CanonicalTo(all, canon, head)
             && k < s.stored
    requires forall n: nat :: views(n) == canon
    ensures k < VerifyLastHead(s, c, views).stored <==> SectionCanonical(c, s, canon, k)
    decreases s.stored
  {
    var last := s.stored - 1;
    if LastMatches(s, c, views(s.stored)) {
      AllCanonical(all, c, s, canon, head);
    } else {
      var r := SetValidSections(s, last);
      SetValidKeeps(all, c, s, last);
      VerifyKeeps(all, c, r, views);
      if k < last {
        VerifyExact(all, c, r, views, canon, head, k);
        assert SectionHead(r, k) == SectionHead(s, k);
      }
    }
  }

  /** In any run, every section that Sections answers with is a stored one, and its head is canonical in the index found
    by the last read, whatever the earlier reads found, if that index is a linked path. When all reads find that path,
    the answer holds all such sections. */
  lemma {:induction false} SectionsCanonical(all: HeaderStore, c: Config, events: seq<Event>, views: Views,
                                             head: Header, k: nat)
    requires Universe(all) && c.sectionSize > 0 && forall e | e in events :: ReadsFrom(e, all)
    requires CanonicalTo(all, views(VerifyLastHead(Run(EMPTY_STATE, c, events), c, views).stored), head)
    ensures var s := Run(EMPTY_STATE, c, events);
            var r := VerifyLastHead(s, c, views);
            var canon := views(r.stored);
            && (k < r.stored ==>
                 k < s.stored && SectionHead(r, k) == SectionHead(s, k) && SectionCanonical(c, r, canon, k))
            && ((forall n: nat :: views(n) == canon) && k < s.stored && SectionCanonical(c, s, canon, k) ==>
                k < r.stored)
  {
    var s := Run(EMPTY_STATE, c, events);
    var r := VerifyLastHead(s, c, views);
    RunKeeps(all, c, events);
    VerifyKeeps(all, c, s, views);
    VerifyMatches(s, c, views);
    if k < r.stored {
      AllCanonical(all, c, r, views(r.stored), head);
    } else if (forall n: nat :: views(n) == views(r.stored)) && k < s.stored {
      VerifyExact(all, c, s, views, views(r.stored), head, k);
    }
  }

  // ----- Progress -----

  function ProcessMany(s: State, c: Config, canon: CanonIndex, headers: HeaderStore, n: nat): State
    decreases n
  {
    if n == 0 then s else ProcessMany(OnProcess(s, c, canon, headers, true), c, canon, headers, n - 1)
  }

  /** The hash below a number on the canonical path; nothing is below number 0. */
  function HashBelow(canon: CanonIndex, next: nat): Hash {
    if next == 0 then ZERO_HASH else ReadCanonicalHash(canon, next - 1)
  }

  /** While the chain stays put, processing goes through the section's canonical headers to its end. */
  lemma {:induction false} QuietProcessing(c: Config, s: State, canon: CanonIndex, headers: HeaderStore,
                                           genesis: Header, top: nat)
    requires Closed(headers, genesis) && PathUpTo(headers, canon, top)
    requires s.job.Running? && s.job.next <= (s.job.section + 1) * c.sectionSize <= top + 1
    requires s.job.lastHead == HashBelow(canon, s.job.next)
    ensures ProcessMany(s, c, canon, headers, (s.job.section + 1) * c.sectionSize - s.job.next + 1) ==
            s.(job := Finished(s.job.section, s.job.oldHead,
                               Some(HashBelow(canon, (s.job.section + 1) * c.sectionSize))))
    decreases (s.job.section + 1) * c.sectionSize - s.job.next
  {
    var end, next := (s.job.section + 1) * c.sectionSize, s.job.next;
    var r := OnProcess(s, c, canon, headers, true);
    if next == end {
      assert ProcessMany(r, c, canon, headers, 0) == r;
    } else {
      assert LinkedAt(headers, canon, next) && ClosedAt(headers, genesis, canon[next]);
      assert r == s.(job := Running(s.job.section, s.job.oldHead, next + 1, canon[next]));
      QuietProcessing(c, r, canon, headers, genesis, top);
    }
  }

  /** A whole update: the locked start, the reset, the section's blocks and the commit, the locked end. */
  function Update(s: State, c: Config, views: Views, canon: CanonIndex, headers: HeaderStore): State
    requires c.sectionSize > 0
  {
    OnFinish(ProcessMany(OnReset(OnBegin(s, c, views), c, true), c, canon, headers, c.sectionSize + 1), c, views)
  }

  /** An undisturbed update of a known section stores it: one more section, headed by the canonical hash at its end. */
  lemma {:induction false} QuietUpdate(c: Config, s: State, views: Views, canon: CanonIndex, headers: HeaderStore,
                                       genesis: Header, top: nat)
    requires c.sectionSize > 0 && s.job == Idle && s.known > s.stored
    requires Closed(headers, genesis) && PathUpTo(headers, canon, top)
    requires forall k :: k in s.heads <==> 0 <= k < s.stored
    requires s.known * c.sectionSize <= top + 1 && forall n: nat :: views(n) == canon
    ensures var v, done := VerifyLastHead(s, c, views), Update(s, c, views, canon, headers);
            && done.stored == v.stored + 1 && done.job == Idle && done.known == s.known
            && SectionHead(done, v.stored) == HashBelow(canon, (v.stored + 1) * c.sectionSize)
            && forall k: nat | k < v.stored :: SectionHead(done, k) == SectionHead(s, k)
  {
    var v := VerifyLastHead(s, c, views);
    VerifyShape(c, s, views);
    MulMonotone(v.stored + 1, s.known, c.sectionSize);
    QuietProcessed(c, s, views, canon, headers, genesis, top);
    FinishStores(c, ProcessedState(c, v, canon), views);
  }

  lemma {:induction false} QuietProcessed(c: Config, s: State, views: Views, canon: CanonIndex, headers: HeaderStore,
                                          genesis: Header, top: nat)
    requires c.sectionSize > 0 && s.job == Idle && s.known > s.stored
    requires Closed(headers, genesis) && PathUpTo(headers, canon, top)
    requires var v := VerifyLastHead(s, c, views);
             && (v.stored + 1) * c.sectionSize <= top + 1
             && SectionHead(v, v.stored - 1) == HashBelow(canon, v.stored * c.sectionSize)
    ensures Update(s, c, views, canon, headers) ==
              OnFinish(ProcessedState(c, VerifyLastHead(s, c, views), canon), c, views)
  {
    QuietStart(c, s, views);
    QuietSection(c, VerifyLastHead(s, c, views), canon, headers, genesis, top);
  }

  /** The state once the next section's canonical blocks have been processed. */
  function ProcessedState(c: Config, v: State, canon: CanonIndex): State {
    v.(job := Finished(v.stored, SectionHead(v, v.stored - 1), Some(HashBelow(canon, (v.stored + 1) * c.sectionSize))))
  }

  /** The job an update loop starts with once the backend has been reset. */
  function StartedJob(c: Config, v: State): Job {
    Running(v.stored, SectionHead(v, v.stored - 1), v.stored * c.sectionSize, SectionHead(v, v.stored - 1))
  }

  lemma {:induction false} QuietStart(c: Config, s: State, views: Views)
    requires c.sectionSize > 0 && s.job == Idle && s.known > s.stored
    ensures OnReset(OnBegin(s, c, views), c, true) ==
            VerifyLastHead(s, c, views).(job := StartedJob(c, VerifyLastHead(s, c, views)))
  {
    var v := VerifyLastHead(s, c, views);
    assert OnBegin(s, c, views) == v.(job := Resetting(v.stored, SectionHead(v, v.stored - 1)));
  }

  lemma {:induction false} QuietSection(c: Config, v: State, canon: CanonIndex, headers: HeaderStore, genesis: Header,
                                        top: nat)
    requires c.sectionSize > 0 && Closed(headers, genesis) && PathUpTo(headers, canon, top)
    requires (v.stored + 1) * c.sectionSize <= top + 1
    requires SectionHead(v, v.stored - 1) == HashBelow(canon, v.stored * c.sectionSize)
    ensures ProcessMany(v.(job := StartedJob(c, v)), c, canon, headers, c.sectionSize + 1) ==
            ProcessedState(c, v, canon)
  {
    var size, section := c.sectionSize, v.stored;
    assert (section + 1) * size == section * size + size;
    QuietProcessing(c, v.(job := StartedJob(c, v)), canon, headers, genesis, top);
  }

  lemma MulMonotone(a: nat, b: nat, size: nat)
    ensures a <= b ==> a * size <= b * size
  {
  }

  /** A finished section whose predecessor is untouched becomes the last stored section. */
  lemma {:induction false} FinishStores(c: Config, s: State, views: Views)
    requires c.sectionSize > 0 && s.job.Finished? && s.job.newHead.Some?
    requires s.job.section == s.stored && s.job.oldHead == SectionHead(s, s.stored - 1)
    requires forall k :: k in s.heads <==> 0 <= k < s.stored
    ensures var r := OnFinish(s, c, views);
            && r.stored == s.stored + 1 && r.job == Idle && r.known == s.known
            && SectionHead(r, s.stored) == s.job.newHead.value
            && forall k: nat | k < s.stored :: SectionHead(r, k) == SectionHead(s, k)
  {
  }

  /** A verification ends on the canonical hash below the next section. */
  lemma {:induction false} VerifyShape(c: Config, s: State, views: Views)
    requires c.sectionSize > 0 && forall k :: k in s.heads <==> 0 <= k < s.stored
    ensures var v := VerifyLastHead(s, c, views);
            && v.stored <= s.stored && v.known == s.known && v.job == s.job
            && (forall k :: k in v.heads <==> 0 <= k < v.stored)
            && (forall k: nat | k < v.stored :: SectionHead(v, k) == SectionHead(s, k))
            && SectionHead(v, v.stored - 1) == HashBelow(views(v.stored), v.stored * c.sectionSize)
  {
    VerifyCuts(s, c, views);
    VerifyMatches(s, c, views);
  }

  // ----- The indexer object -----

  /** The indexer itself: each method is one atomic step and is proved to compute that step's state. */
  class ChainIndexer {
    const config: Config
    var storedSections: nat
    var knownSections: nat
    var sectionHeads: map<nat, Hash>
    var job: Job

    constructor (config: Config)
      requires config.sectionSize > 0
      ensures this.config == config && Current() == EMPTY_STATE
    {
      this.config, storedSections, knownSections, sectionHeads, job := config, 0, 0, map[], Idle;
    }

    ghost function Current(): State
      reads this
    {
      State(storedSections, knownSections, sectionHeads, job)
    }

    method SetValid(sections: nat)
      modifies this`storedSections, this`sectionHeads
      ensures Current() == SetValidSections(old(Current()), sections)
    {
      while storedSections > sections
        invariant storedSections <= old(storedSections)
        invariant storedSections < old(storedSections) ==> storedSections >= sections
        invariant knownSections == old(knownSections) && job == old(job)
        invariant sectionHeads == map k | k in old(sectionHeads) && !(storedSections <= k < old(storedSections)) ::
                    old(sectionHeads)[k]
      {
        storedSections := storedSections - 1;
        sectionHeads := sectionHeads - {storedSections};
      }
      storedSections := sections;
    }

    /** A section's stored head, or the zero hash. */
    method HeadOf(section: int) returns (head: Hash)
      ensures head == SectionHead(Current(), section)
    {
      head := if section >= 0 && section in sectionHeads then sectionHeads[section] else ZERO_HASH;
    }

    method VerifyLast(views: Views)
      requires config.sectionSize > 0
      modifies this
      ensures Current() == VerifyLastHead(old(Current()), config, views)
      ensures Verified(config, old(Current()), views, Current())
    {
      ghost var s := Current();
      VerifyLoop(views);
      VerifyIs(s, config, views);
    }

    /** The loop of VerifyLast. */
    method VerifyLoop(views: Views)
      requires config.sectionSize > 0
      modifies this
      ensures Current() == VerifyLastHead(old(Current()), config, views)
    {
      ghost var target := VerifyLastHead(Current(), config, views);
      while storedSections > 0
        invariant VerifyLastHead(Current(), config, views) == target
      {
        VerifyStep(Current(), config, views);
        var head := HeadOf(storedSections - 1);
        if head == ReadCanonicalHash(views(storedSections), storedSections * config.sectionSize - 1) {
          return;
        }
        SetValid(storedSections - 1);
      }
    }

    method HandleNewHead(head: nat, reorg: bool)
      requires config.sectionSize > 0
      modifies this
      ensures Current() == OnNewHead(old(Current()), config, head, reorg)
      // A reorg leaves exactly the sections that end at or below the head, among the stored and among the known ones.
      ensures reorg ==> forall k: nat :: k <= storedSections <==> k <= old(storedSections) && EndBy(config, k, 0, head)
      ensures reorg ==> forall k: nat :: k <= knownSections <==> k <= old(knownSections) && EndBy(config, k, 0, head)
      ensures forall k: nat | k < storedSections ::
                SectionHead(Current(), k) == SectionHead(old(Current()), k)
      // A new head makes exactly those sections known that it confirms.
      ensures !reorg ==> storedSections == old(storedSections) && sectionHeads == old(sectionHeads)
      ensures !reorg ==> forall k: nat | k > 0 :: k <= knownSections <==>
                           k <= old(knownSections) || EndBy(config, k, config.confirms, head)
      ensures job == old(job)
    {
      ConfirmedCount(head);
      if reorg {
        var known := (head + 1) / config.sectionSize;
        var stored := known;
        if known < knownSections {
          knownSections := known;
        }
        if stored < storedSections {
          SetValid(stored);
        }
        return;
      }
      if head >= config.confirms {
        var sections := (head + 1 - config.confirms) / config.sectionSize;
        if sections > knownSections {
          knownSections := sections;
        }
      }
    }

    /** What the quotients of HandleNewHead count. */
    lemma ConfirmedCount(head: nat)
      requires config.sectionSize > 0
      ensures forall k: nat :: EndBy(config, k, 0, head) <==> k <= (head + 1) / config.sectionSize
      ensures forall k: nat | k > 0 :: EndBy(config, k, config.confirms, head) <==>
                head >= config.confirms && k <= (head + 1 - config.confirms) / config.sectionSize
    {
      forall k: nat ensures EndBy(config, k, 0, head) <==> k <= (head + 1) / config.sectionSize {
        Fits(config.sectionSize, head + 1, k);
      }
      forall k: nat | k > 0
        ensures EndBy(config, k, config.confirms, head) <==>
                head >= config.confirms && k <= (head + 1 - config.confirms) / config.sectionSize
      {
        MulMonotone(1, k, config.sectionSize);
        if head >= config.confirms {
          Fits(config.sectionSize, head + 1 - config.confirms, k);
        }
      }
    }

    method BeginUpdate(views: Views)
      requires config.sectionSize > 0
      modifies this
      ensures Current() == OnBegin(old(Current()), config, views)
      // A section is picked if and only if none is in work and one is known beyond the stored ones: the next one.
      ensures old(job) == Idle && old(knownSections) > old(storedSections) ==>
                && Verified(config, old(Current()), views, Current().(job := Idle))
                && job == Resetting(storedSections, SectionHead(Current(), storedSections - 1))
                && storedSections < knownSections
      ensures !(old(job) == Idle && old(knownSections) > old(storedSections)) ==> Current() == old(Current())
    {
      if job == Idle && knownSections > storedSections {
        VerifyLast(views);
        ghost var v := Current();
        VerifyCuts(old(Current()), config, views);
        var oldHead := ZERO_HASH;
        if storedSections > 0 {
          oldHead := HeadOf(storedSections - 1);
        }
        job := Resetting(storedSections, oldHead);
      }
    }

    method FinishUpdate(views: Views)
      requires config.sectionSize > 0
      modifies this
      ensures Current() == OnFinish(old(Current()), config, views)
      ensures !old(job).Finished? ==> Current() == old(Current())
      ensures old(job).Finished? ==>
                var section, oldHead, newHead := old(job).section, old(job).oldHead, old(job).newHead;
                && job == Idle
                && (if newHead.Some? && (section == 0 || oldHead == SectionHead(old(Current()), section - 1)) then
                      && storedSections == section + 1 && knownSections == old(knownSections)
                      && SectionHead(Current(), section) == newHead.value
                      && forall k: nat | k < section :: SectionHead(Current(), k) == SectionHead(old(Current()), k)
                    else
                      && knownSections == storedSections
                      && Verified(config, old(Current()).(job := Idle), views, Current().(known := old(knownSections))))
    {
      FinishIs(Current(), config, views);
      if job.Finished? {
        var section: int, oldHead, newHead := job.section, job.oldHead, job.newHead;
        var previous := HeadOf(section - 1);
        if newHead.Some? && (section == 0 || oldHead == previous) {
          Store(section, newHead.value);
        } else {
          GiveUp(views);
        }
      }
    }

    /** What the end of an update does: it stores the section, or verifies and forgets what was known beyond. */
    static lemma {:induction false} FinishIs(s: State, c: Config, views: Views)
      requires c.sectionSize > 0
      ensures s.job.Finished? ==>
                var r, section := OnFinish(s, c, views), s.job.section;
                && r.job == Idle
                && (if s.job.newHead.Some? && (section == 0 || s.job.oldHead == SectionHead(s, section - 1)) then
                      && r.stored == section + 1 && r.known == s.known
                      && SectionHead(r, section) == s.job.newHead.value
                      && forall k: nat | k < section :: SectionHead(r, k) == SectionHead(s, k)
                    else
                      r.known == r.stored && Verified(c, s.(job := Idle), views, r.(known := s.known)))
    {
      VerifyIs(s, c, views);
      VerifiedJob(c, s, views, VerifyLastHead(s, c, views));
    }

    static lemma {:induction false} VerifiedJob(c: Config, s: State, views: Views, r: State)
      requires c.sectionSize > 0 && Verified(c, s, views, r)
      ensures Verified(c, s.(job := Idle), views, r.(job := Idle))
    {
      forall k: nat | r.stored <= k < s.stored ensures Dropped(c, s.(job := Idle), views, k) {
        assert Dropped(c, s, views, k);
      }
      forall k: nat | k < r.stored ensures SectionHead(r.(job := Idle), k) == SectionHead(s.(job := Idle), k) {
        assert SectionHead(r, k) == SectionHead(s, k);
      }
    }

    /** Stores a section's head and makes it the last section. */
    method Store(section: nat, head: Hash)
      modifies this
      ensures Current() == SetValidSections(old(Current()).(heads := old(sectionHeads)[section := head]),
                                            section + 1).(job := Idle)
    {
      sectionHeads := sectionHeads[section := head];
      SetValid(section + 1);
      job := Idle;
    }

    /** After a failed or disturbed section: verifies what is stored and forgets what was known beyond it. */
    method GiveUp(views: Views)
      requires config.sectionSize > 0
      modifies this
      ensures Current() == var v := VerifyLastHead(old(Current()), config, views); v.(known := v.stored, job := Idle)
      ensures Verified(config, old(Current()), views, Current().(known := old(knownSections), job := old(job)))
    {
      VerifyLast(views);
      knownSections := storedSections;
      job := Idle;
    }

    /** Reads the number of sections, the last block number and the last head, after verifying. */
    method Sections(views: Views) returns (sections: nat, last: int, head: Hash)
      requires config.sectionSize > 0
      modifies this
      ensures Current() == VerifyLastHead(old(Current()), config, views)
      ensures Verified(config, old(Current()), views, Current())
      ensures sections == storedSections && last == sections * config.sectionSize - 1
      ensures head == SectionHead(Current(), sections - 1)
    {
      VerifyLast(views);
      sections, last := storedSections, storedSections * config.sectionSize - 1;
      head := ZERO_HASH;
      if sections > 0 {
        head := HeadOf(storedSections - 1);
      }
    }

    /** The backend's reset, the next block of a section, or the final commit, without the lock. */
    method ProcessStep(canon: CanonIndex, headers: HeaderStore, ok: bool)
      modifies this
      ensures old(job).Resetting? ==> Current() == OnReset(old(Current()), config, ok)
      ensures old(job).Running? ==> Current() == OnProcess(old(Current()), config, canon, headers, ok)
      ensures old(job).Idle? || old(job).Finished? ==> Current() == old(Current())
      // A failed reset drops every section; a good one starts the section at its first block.
      ensures old(job).Resetting? && ok ==>
                Current() == old(Current()).(job := Running(old(job).section, old(job).oldHead,
                                                            old(job).section * config.sectionSize, old(job).oldHead))
      ensures old(job).Resetting? && !ok ==>
                && storedSections == 0 && knownSections == old(knownSections)
                && job == Finished(old(job).section, old(job).oldHead, None)
                && forall k: nat | k < old(storedSections) :: k !in sectionHeads
      // A block is processed when it is canonical, stored and a child of the last one; then it is the last one.
      ensures old(job).Running? ==>
                var section, oldHead, next, lastHead := old(job).section, old(job).oldHead, old(job).next,
                    old(job).lastHead;
                && storedSections == old(storedSections) && knownSections == old(knownSections)
                && sectionHeads == old(sectionHeads)
                && (if next == (section + 1) * config.sectionSize then
                      job == Finished(section, oldHead, if ok then Some(lastHead) else None)
                    else if ok && next in canon && canon[next] != ZERO_HASH && canon[next] in headers
                            && headers[canon[next]].number == next && headers[canon[next]].parent == lastHead then
                      job == Running(section, oldHead, next + 1, headers[canon[next]].hash)
                    else job == Finished(section, oldHead, None))
    {
      match job {
        case Resetting(section, oldHead) =>
          if ok {
            job := Running(section, oldHead, section * config.sectionSize, oldHead);
          } else {
            SetValid(0);
            job := Finished(section, oldHead, None);
          }
        case Running(section, oldHead, next, lastHead) =>
          if next == (section + 1) * config.sectionSize {
            job := Finished(section, oldHead, if ok then Some(lastHead) else None);
            return;
          }
          var hash := ReadCanonicalHash(canon, next);
          var header := GetHeader(headers, hash, next);
          if hash == ZERO_HASH || header.None? || header.value.parent != lastHead || !ok {
            job := Finished(section, oldHead, None);
            return;
          }
          job := Running(section, oldHead, next + 1, header.value.hash);
        case _ =>
      }
    }
  }
}
