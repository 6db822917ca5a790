/** The event feed: one Send at a time delivers a value to all subscribed channels, permuting and shrinking a
  shared list of select cases, while subscribers come and go. Every step that another goroutine can observe is one
  atomic event; a run is any sequence of enabled events. A channel may be subscribed more than once. */
module Feeds {
  import opened Wrappers

  type Chan = nat

  /** The channel of the first select case, on which Send receives removal requests. */
  const REMOVE_SUB: Chan := 0

  /** Free: the send lock is available. Fast(i): Send is trying case i without blocking. Selecting: Send is blocked
    in a select over its cases. Ending: every case but the first has been used. */
  datatype Phase = Free | Fast(i: nat) | Selecting | Ending

  /** cases are the feed's sendCases and the first active of them Send's own prefix. live are the subscriptions whose
    removal has not begun, pending the removals that did not find their channel in the inbox and are waiting.
    taken, delivered and dropped account for the current or last Send. */
  datatype State = State(
    inbox: seq<Chan>,
    cases: seq<Chan>,
    active: nat,
    phase: Phase,
    live: multiset<Chan>,
    pending: multiset<Chan>,
    taken: multiset<Chan>,
    delivered: multiset<Chan>,
    dropped: multiset<Chan>,
    nsent: nat)

  datatype Event =
    | Subscribe(ch: Chan)
    | Unsubscribe(ch: Chan)
    | RemoveDirect(ch: Chan)
    | BeginSend
    | TrySend(ok: bool)
    | FastDone
    | SelectRemove(ch: Chan)
    | SelectSend(i: nat)
    | EndSend

  const INITIAL: State :=
    State([], [REMOVE_SUB], 1, Free, multiset{}, multiset{}, multiset{}, multiset{}, multiset{}, 0)

  // ----- Case lists -----

  /** The index of the first case with a channel, or -1. */
  function Find(cs: seq<Chan>, ch: Chan): (index: int)
    ensures if ch in cs then 0 <= index < |cs| && cs[index] == ch && ch !in cs[..index] else index == -1
  {
    if cs == [] then -1
    else if cs[|cs| - 1] == ch && ch !in cs[..|cs| - 1] then |cs| - 1
    else
      assert cs == cs[..|cs| - 1] + [cs[|cs| - 1]];
      var index := Find(cs[..|cs| - 1], ch);
      assert ch in cs ==> cs[..|cs| - 1][..index] == cs[..index];
      index
  }

  function Delete(cs: seq<Chan>, index: nat): seq<Chan>
    requires index < |cs|
  {
    cs[..index] + cs[index + 1..]
  }

  /** Swaps the case at index with the last of the active ones. */
  function Deactivate(cs: seq<Chan>, active: nat, index: nat): seq<Chan>
    requires index < active <= |cs|
  {
    cs[index := cs[active - 1]][active - 1 := cs[index]]
  }

  /** The channels of a case list, without its first case. */
  ghost function Subs(cs: seq<Chan>): multiset<Chan>
    requires |cs| > 0
  {
    multiset(cs[1..])
  }

  lemma DeleteMultiset(cs: seq<Chan>, index: nat)
    requires index < |cs|
    ensures multiset(Delete(cs, index)) == multiset(cs) - multiset{cs[index]}
    ensures index > 0 ==> Subs(Delete(cs, index)) == Subs(cs) - multiset{cs[index]}
  {
    assert cs == cs[..index] + [cs[index]] + cs[index + 1..];
    if index > 0 {
      assert cs[1..] == cs[1..index] + [cs[index]] + cs[index + 1..];
      assert Delete(cs, index)[1..] == cs[1..index] + cs[index + 1..];
    }
  }

  lemma AroundOne(a: seq<Chan>, x: Chan, b: seq<Chan>)
    ensures multiset(a + [x] + b) == multiset(a) + multiset(b) + multiset{x}
  {
  }

  /** Deleting a case of the active prefix leaves the rest alone, and the other way round. */
  lemma DeleteBefore(cs: seq<Chan>, active: nat, index: nat)
    requires 0 < index < active <= |cs|
    ensures multiset(Delete(cs, index)[1..active - 1]) == multiset(cs[1..active]) - multiset{cs[index]}
    ensures Delete(cs, index)[active - 1..] == cs[active..]
  {
    var a, b := cs[1..index], cs[index + 1..active];
    assert cs[1..active] == a + [cs[index]] + b;
    assert Delete(cs, index)[1..active - 1] == a + b;
    AroundOne(a, cs[index], b);
  }

  lemma DeleteAfter(cs: seq<Chan>, active: nat, index: nat)
    requires 1 <= active <= index < |cs|
    ensures Delete(cs, index)[1..active] == cs[1..active]
    ensures multiset(Delete(cs, index)[active..]) == multiset(cs[active..]) - multiset{cs[index]}
  {
    var a, b := cs[active..index], cs[index + 1..];
    assert cs[active..] == a + [cs[index]] + b;
    assert Delete(cs, index)[active..] == a + b;
    AroundOne(a, cs[index], b);
  }

  lemma {:induction false} DeactivateSplit(cs: seq<Chan>, active: nat, index: nat)
    requires 0 < index < active <= |cs|
    ensures var d := Deactivate(cs, active, index);
            && d[0] == cs[0]
            && multiset(d[1..active - 1]) == multiset(cs[1..active]) - multiset{cs[index]}
            && multiset(d[active - 1..]) == multiset(cs[active..]) + multiset{cs[index]}
  {
    var d := Deactivate(cs, active, index);
    AroundOne([], cs[index], cs[active..]);
    assert d[active - 1..] == [] + [cs[index]] + cs[active..];
    var a, b := cs[1..index], cs[index + 1..active];
    AroundOne(a, cs[index], b);
    assert cs[1..active] == a + [cs[index]] + b;
    DeactivatePrefix(cs, active, index);
  }

  lemma DeactivatePrefix(cs: seq<Chan>, active: nat, index: nat)
    requires 0 < index < active <= |cs|
    ensures multiset(Deactivate(cs, active, index)[1..active - 1]) ==
              multiset(cs[1..index]) + multiset(cs[index + 1..active])
  {
    var d, a, b := Deactivate(cs, active, index), cs[1..index], cs[index + 1..active];
    if index == active - 1 {
      assert d[1..active - 1] == a;
    } else {
      var mid := cs[index + 1..active - 1];
      assert d[1..active - 1] == a + [cs[active - 1]] + mid;
      assert b == mid + [cs[active - 1]] + [];
      AroundOne(a, cs[active - 1], mid);
      AroundOne(mid, cs[active - 1], []);
    }
  }

  /** The cases are the active ones and the rest. */
  lemma SubsSplit(cs: seq<Chan>, active: nat)
    requires 1 <= active <= |cs|
    ensures Subs(cs) == multiset(cs[1..active]) + multiset(cs[active..])
  {
    assert cs[1..] == cs[1..active] + cs[active..];
  }

  /** Deleting the first case with a channel takes one away. */
  lemma {:induction false} DeletesOne(cs: seq<Chan>, ch: Chan)
    requires ch in cs
    ensures multiset(DeleteFound(cs, ch)) == multiset(cs) - multiset{ch}
  {
    DeleteMultiset(cs, Find(cs, ch));
  }

  lemma {:induction false} FoundBelow(cs: seq<Chan>, ch: Chan, active: nat)
    requires ch in cs && active <= |cs|
    ensures Find(cs, ch) < active <==> ch in cs[..active]
  {
    var index := Find(cs, ch);
    if index < active {
      assert cs[..active][index] == ch;
    } else {
      assert cs[..active] == cs[..index][..active];
    }
  }

  // ----- Steps -----

  predicate Enabled(s: State, e: Event) {
    match e
    case Subscribe(ch) => ch != REMOVE_SUB
    case Unsubscribe(ch) => ch in s.live
    case RemoveDirect(ch) => ch in s.pending && s.phase.Free?
    case BeginSend => s.phase.Free?
    case TrySend(ok) => s.phase.Fast? && s.phase.i < s.active
    case FastDone => s.phase.Fast? && s.phase.i >= s.active
    case SelectRemove(ch) => ch in s.pending && s.phase.Selecting?
    case SelectSend(i) => s.phase.Selecting? && 1 <= i < s.active
    case EndSend => s.phase.Ending?
  }

  function DeleteFound(cs: seq<Chan>, ch: Chan): seq<Chan> {
    if Find(cs, ch) >= 0 then Delete(cs, Find(cs, ch)) else cs
  }

  /** Case i has accepted the value. */
  function Deliver(s: State, i: nat): State {
    if i < s.active <= |s.cases| then
      s.(cases := Deactivate(s.cases, s.active, i), active := s.active - 1,
         delivered := s.delivered + multiset{s.cases[i]}, nsent := s.nsent + 1)
    else s
  }

  function Next(s: State, e: Event): State {
    match e
    case Subscribe(ch) => s.(inbox := s.inbox + [ch], live := s.live + multiset{ch})
    case Unsubscribe(ch) =>
      var s' := s.(live := s.live - multiset{ch});
      if ch in s.inbox then s'.(inbox := DeleteFound(s.inbox, ch))
      else s'.(pending := s.pending + multiset{ch})
    case RemoveDirect(ch) =>
      s.(cases := DeleteFound(s.cases, ch), pending := s.pending - multiset{ch})
    case BeginSend =>
      var cases := s.cases + s.inbox;
      s.(inbox := [], cases := cases, active := |cases|, phase := Fast(1),
         taken := multiset(if |cases| > 0 then cases[1..] else []), delivered := multiset{},
         dropped := multiset{}, nsent := 0)
    case TrySend(ok) =>
      if !s.phase.Fast? then s
      else if ok then Deliver(s, s.phase.i)
      else s.(phase := Fast(s.phase.i + 1))
    case FastDone => s.(phase := if s.active == 1 then Ending else Selecting)
    case SelectRemove(ch) =>
      var index := Find(s.cases, ch);
      var s' := s.(cases := DeleteFound(s.cases, ch), pending := s.pending - multiset{ch}, phase := Fast(1));
      if 0 <= index < s.active then s'.(active := s.active - 1, dropped := s.dropped + multiset{ch}) else s'
    case SelectSend(i) => Deliver(s, i).(phase := Fast(1))
    case EndSend => s.(phase := Free)
  }

  /** A removal inside Send takes one case of the channel away, counts it as dropped and shrinks the prefix exactly when
    the prefix holds that channel, and starts over with the first case. */
  lemma {:induction false} RemovalExact(s: State, ch: Chan)
    requires Enabled(s, SelectRemove(ch)) && ch in s.cases && s.active <= |s.cases|
    ensures var s' := Next(s, SelectRemove(ch));
            && multiset(s'.cases) == multiset(s.cases) - multiset{ch}
            && s'.pending == s.pending - multiset{ch} && s'.phase == Fast(1) && s'.delivered == s.delivered
            && if ch in s.cases[..s.active] then s'.active == s.active - 1 && s'.dropped == s.dropped + multiset{ch}
               else s'.active == s.active && s'.dropped == s.dropped
  {
    DeletesOne(s.cases, ch);
    FoundBelow(s.cases, ch, s.active);
  }

  /** The state after a run, or None when some event of the run was not enabled. */
  function Run(events: seq<Event>): Option<State> {
    if events == [] then Some(INITIAL)
    else
      match Run(events[..|events| - 1])
      case None => None
      case Some(s) => if Enabled(s, events[|events| - 1]) then Some(Next(s, events[|events| - 1])) else None
  }

  // ----- The invariant -----

  /** Every subscription, live or being removed, has exactly one entry, in the inbox or among the cases;
    a waiting removal's entry is among the cases. */
  ghost predicate Placed(s: State) {
    && |s.cases| > 0 && s.cases[0] == REMOVE_SUB && REMOVE_SUB !in s.live + s.pending
    && multiset(s.inbox) + Subs(s.cases) == s.live + s.pending
    && s.pending <= Subs(s.cases)
  }

  /** What was taken is still active, delivered or dropped, and what is no longer active has been delivered. */
  ghost predicate Accounts(cases: seq<Chan>, active: nat, delivered: multiset<Chan>, dropped: multiset<Chan>,
                           taken: multiset<Chan>)
  {
    && 1 <= active <= |cases|
    && multiset(cases[1..active]) + delivered + dropped == taken
    && multiset(cases[active..]) <= delivered
  }

  /** While a Send runs, its channels are accounted for and its result counts the deliveries. */
  ghost predicate Accounted(s: State)
    requires |s.cases| > 0
  {
    !s.phase.Free? ==>
      && Accounts(s.cases, s.active, s.delivered, s.dropped, s.taken)
      && s.nsent == |s.delivered|
      && (s.phase.Fast? ==> 1 <= s.phase.i <= s.active)
      && (s.phase.Selecting? ==> s.active > 1)
      && (s.phase.Ending? ==> s.active == 1)
  }

  ghost predicate Inv(s: State) {
    Placed(s) && Accounted(s)
  }

  /** The lookups of remove and Send never miss, and never hit the first case. */
  lemma LookupHits(s: State, ch: Chan)
    requires Placed(s) && ch in s.pending
    ensures 1 <= Find(s.cases, ch) < |s.cases| && s.cases[Find(s.cases, ch)] == ch
  {
    assert ch in s.cases[1..];
    assert s.cases == [s.cases[0]] + s.cases[1..];
    assert ch in s.cases;
  }

  lemma SubscribeKeeps(s: State, ch: Chan)
    requires Inv(s) && ch != REMOVE_SUB
    ensures Inv(Next(s, Subscribe(ch)))
  {
    assert multiset(s.inbox + [ch]) + Subs(s.cases) == (multiset(s.inbox) + Subs(s.cases)) + multiset{ch};
    assert (s.live + multiset{ch}) + s.pending == (s.live + s.pending) + multiset{ch};
  }

  lemma {:induction false} UnsubscribeKeeps(s: State, ch: Chan)
    requires Inv(s) && ch in s.live
    ensures Inv(Next(s, Unsubscribe(ch)))
  {
    var live' := s.live - multiset{ch};
    if ch in s.inbox {
      var index := Find(s.inbox, ch);
      DeleteMultiset(s.inbox, index);
      assert ch in multiset(s.inbox);
      assert (multiset(s.inbox) - multiset{ch}) + Subs(s.cases) == (multiset(s.inbox) + Subs(s.cases)) - multiset{ch};
      assert live' + s.pending == (s.live + s.pending) - multiset{ch};
    } else {
      NotInInbox(s, ch);
      assert live' + (s.pending + multiset{ch}) == s.live + s.pending;
    }
  }

  /** A live subscription that is not in the inbox has its own entry among the cases, besides those of waiting
    removals. */
  lemma NotInInbox(s: State, ch: Chan)
    requires Placed(s) && ch in s.live && ch !in s.inbox
    ensures s.pending + multiset{ch} <= Subs(s.cases)
  {
    assert multiset(s.inbox)[ch] == 0;
    assert (multiset(s.inbox) + Subs(s.cases))[ch] == (s.live + s.pending)[ch];
  }

  lemma {:induction false} DeleteCaseKeeps(s: State, ch: Chan)
    requires Placed(s) && ch in s.pending
    ensures var index := Find(s.cases, ch);
            var s' := s.(cases := Delete(s.cases, index), pending := s.pending - multiset{ch});
            Placed(s')
  {
    LookupHits(s, ch);
    DeleteMultiset(s.cases, Find(s.cases, ch));
    var one, pending' := multiset{ch}, s.pending - multiset{ch};
    assert multiset(s.inbox) + (Subs(s.cases) - one) == (multiset(s.inbox) + Subs(s.cases)) - one;
    assert s.live + pending' == (s.live + s.pending) - one;
    assert REMOVE_SUB !in s.live + pending';
  }

  lemma {:induction false} SelectRemoveKeeps(s: State, ch: Chan)
    requires Inv(s) && Enabled(s, SelectRemove(ch))
    ensures Inv(Next(s, SelectRemove(ch)))
  {
    LookupHits(s, ch);
    DeleteCaseKeeps(s, ch);
    RemoveAccounted(s, ch);
  }

  lemma {:induction false} RemoveAccounted(s: State, ch: Chan)
    requires |s.cases| > 0 && Accounted(s) && s.phase.Selecting? && 1 <= Find(s.cases, ch)
    ensures |Next(s, SelectRemove(ch)).cases| > 0 && Accounted(Next(s, SelectRemove(ch)))
  {
    var index := Find(s.cases, ch);
    if index < s.active {
      DropActive(s.cases, s.active, index, s.delivered, s.dropped, s.taken);
    } else {
      DropDelivered(s.cases, s.active, index, s.delivered, s.dropped, s.taken);
    }
  }

  lemma DropActive(cs: seq<Chan>, active: nat, index: nat, delivered: multiset<Chan>, dropped: multiset<Chan>,
                   taken: multiset<Chan>)
    requires Accounts(cs, active, delivered, dropped, taken) && 0 < index < active
    ensures Accounts(Delete(cs, index), active - 1, delivered, dropped + multiset{cs[index]}, taken)
  {
    DeleteBefore(cs, active, index);
    assert cs[1..active][index - 1] == cs[index];
    DropSums(multiset(cs[1..active]), delivered, dropped, taken, cs[index]);
  }

  lemma DropDelivered(cs: seq<Chan>, active: nat, index: nat, delivered: multiset<Chan>, dropped: multiset<Chan>,
                      taken: multiset<Chan>)
    requires Accounts(cs, active, delivered, dropped, taken) && active <= index < |cs|
    ensures Accounts(Delete(cs, index), active, delivered, dropped, taken)
  {
    DeleteAfter(cs, active, index);
  }

  lemma DropSums(before: multiset<Chan>, delivered: multiset<Chan>, dropped: multiset<Chan>, taken: multiset<Chan>,
                 x: Chan)
    requires x in before && before + delivered + dropped == taken
    ensures (before - multiset{x}) + delivered + (dropped + multiset{x}) == taken
  {
    MoveOne(before, dropped, multiset{x});
    assert before + delivered + dropped == (before + dropped) + delivered;
  }

  lemma {:induction false} BeginKeeps(s: State)
    requires Inv(s) && s.phase.Free?
    ensures Inv(Next(s, BeginSend))
  {
    var cases := s.cases + s.inbox;
    assert cases[1..] == s.cases[1..] + s.inbox;
    assert cases[|cases|..] == [];
    assert cases[1..|cases|] == cases[1..];
  }

  lemma {:induction false} DeliverKeeps(s: State, i: nat)
    requires Inv(s) && !s.phase.Free? && 1 <= i < s.active
    ensures Placed(Deliver(s, i))
    ensures Accounted(Deliver(s, i).(phase := Fast(1)))
    ensures s.phase.Fast? && s.phase.i <= i ==> Accounted(Deliver(s, i))
  {
    DeliverPlaced(s, i);
    DeliverState(s, i);
  }

  lemma DeliverPlaced(s: State, i: nat)
    requires Placed(s) && 1 <= i < s.active <= |s.cases|
    ensures Placed(Deliver(s, i))
  {
    DeactivateSubs(s.cases, s.active, i);
  }

  /** Moving a case out of the active prefix leaves the list's channels as they are. */
  lemma {:induction false} DeactivateSubs(cs: seq<Chan>, active: nat, i: nat)
    requires 1 <= i < active <= |cs|
    ensures Subs(Deactivate(cs, active, i)) == Subs(cs)
  {
    InPrefix(cs, active, i);
    DeactivateSplit(cs, active, i);
    SameSubs(cs, Deactivate(cs, active, i), active, cs[i]);
  }

  lemma {:induction false} InPrefix(cs: seq<Chan>, active: nat, i: nat)
    requires 1 <= i < active <= |cs|
    ensures cs[i] in cs[1..active]
  {
    assert cs[1..active][i - 1] == cs[i];
  }

  lemma {:induction false} SameSubs(cs: seq<Chan>, d: seq<Chan>, active: nat, x: Chan)
    requires 1 < active <= |cs| == |d| && x in cs[1..active]
    requires multiset(d[1..active - 1]) == multiset(cs[1..active]) - multiset{x}
    requires multiset(d[active - 1..]) == multiset(cs[active..]) + multiset{x}
    ensures Subs(d) == Subs(cs)
  {
    SubsSplit(cs, active);
    SubsSplit(d, active - 1);
    MoveOne(multiset(cs[1..active]), multiset(cs[active..]), multiset{x});
  }

  lemma {:induction false} DeliverState(s: State, i: nat)
    requires Accounts(s.cases, s.active, s.delivered, s.dropped, s.taken) && 1 <= i < s.active
    ensures var d := Deliver(s, i);
            && Accounts(d.cases, d.active, d.delivered, d.dropped, d.taken)
            && d.active == s.active - 1 && d.phase == s.phase && d.nsent == s.nsent + 1
               && |d.delivered| == |s.delivered| + 1
  {
    DeliverIs(s, i);
    var d := Deliver(s, i);
    DeliverAccounted(s.cases, s.active, i, s.delivered, s.dropped, s.taken, d.cases, d.active, d.delivered);
    OneMore(s.delivered, s.cases[i]);
  }

  lemma {:induction false} DeliverIs(s: State, i: nat)
    requires 1 <= i < s.active <= |s.cases|
    ensures Deliver(s, i) == State(s.inbox, Deactivate(s.cases, s.active, i), s.active - 1, s.phase, s.live, s.pending,
                                   s.taken, s.delivered + multiset{s.cases[i]}, s.dropped, s.nsent + 1)
  {
  }

  lemma {:induction false} OneMore(m: multiset<Chan>, x: Chan)
    ensures |m + multiset{x}| == |m| + 1
  {
  }

  lemma {:induction false} DeliverAccounted(cs: seq<Chan>, active: nat, i: nat, delivered: multiset<Chan>,
                                            dropped: multiset<Chan>, taken: multiset<Chan>, cs': seq<Chan>,
                                            active': nat, delivered': multiset<Chan>)
    requires Accounts(cs, active, delivered, dropped, taken) && 1 <= i < active
    requires cs' == Deactivate(cs, active, i) && active' == active - 1 && delivered' == delivered + multiset{cs[i]}
    ensures Accounts(cs', active', delivered', dropped, taken)
  {
    InPrefix(cs, active, i);
    SplitOf(cs, active, i, cs');
    DeliverAccounts(cs, cs', active, cs[i], delivered, dropped, taken);
  }

  lemma {:induction false} SplitOf(cs: seq<Chan>, active: nat, index: nat, d: seq<Chan>)
    requires 0 < index < active <= |cs| && d == Deactivate(cs, active, index)
    ensures |d| == |cs|
    ensures multiset(d[1..active - 1]) == multiset(cs[1..active]) - multiset{cs[index]}
    ensures multiset(d[active - 1..]) == multiset(cs[active..]) + multiset{cs[index]}
  {
    DeactivateSplit(cs, active, index);
  }

  lemma {:induction false} DeliverAccounts(cs: seq<Chan>, d: seq<Chan>, active: nat, x: Chan, delivered: multiset<Chan>,
                                           dropped: multiset<Chan>, taken: multiset<Chan>)
    requires Accounts(cs, active, delivered, dropped, taken) && |d| == |cs| && active > 1 && x in cs[1..active]
    requires multiset(d[1..active - 1]) == multiset(cs[1..active]) - multiset{x}
    requires multiset(d[active - 1..]) == multiset(cs[active..]) + multiset{x}
    ensures Accounts(d, active - 1, delivered + multiset{x}, dropped, taken)
  {
    DeliverSums(multiset(cs[1..active]), multiset(cs[active..]), delivered, dropped, taken, x);
  }

  lemma DeliverSums(before: multiset<Chan>, rest: multiset<Chan>, delivered: multiset<Chan>, dropped: multiset<Chan>,
                    taken: multiset<Chan>, x: Chan)
    requires x in before && before + delivered + dropped == taken && rest <= delivered
    ensures (before - multiset{x}) + (delivered + multiset{x}) + dropped == taken
    ensures rest + multiset{x} <= delivered + multiset{x}
  {
    MoveOne(before, delivered, multiset{x});
  }

  lemma MoveOne(a: multiset<Chan>, b: multiset<Chan>, one: multiset<Chan>)
    requires one <= a
    ensures (a - one) + (b + one) == a + b
  {
  }

  /** Steps that only move Send on. */
  lemma {:induction false} MoveOnKeeps(s: State, e: Event)
    requires Inv(s) && Enabled(s, e) && (e == TrySend(false) || e == FastDone || e == EndSend)
    ensures Inv(Next(s, e))
  {
  }

  lemma {:induction false} StepKeeps(s: State, e: Event)
    requires Inv(s) && Enabled(s, e)
    ensures Inv(Next(s, e))
  {
    match e
    case Subscribe(ch) => SubscribeKeeps(s, ch);
    case Unsubscribe(ch) => UnsubscribeKeeps(s, ch);
    case RemoveDirect(ch) => DeleteCaseKeeps(s, ch);
    case BeginSend => BeginKeeps(s);
    case TrySend(ok) =>
      if ok {
        DeliverKeeps(s, s.phase.i);
      } else {
        MoveOnKeeps(s, e);
      }
    case FastDone => MoveOnKeeps(s, e);
    case SelectRemove(ch) => SelectRemoveKeeps(s, ch);
    case SelectSend(i) => DeliverKeeps(s, i);
    case EndSend => MoveOnKeeps(s, e);
  }

  /** Every reachable state satisfies the invariant. */
  lemma {:induction false} RunKeeps(events: seq<Event>)
    ensures Run(events).Some? ==> Inv(Run(events).value)
  {
    if events != [] {
      RunKeeps(events[..|events| - 1]);
      match Run(events[..|events| - 1])
      case None =>
      case Some(s) =>
        if Enabled(s, events[|events| - 1]) {
          StepKeeps(s, events[|events| - 1]);
        }
    }
  }

  // ----- What a Send guarantees -----

  /** When a Send ends, each channel it took at its start has been sent to exactly as often as it was subscribed
    and not removed before delivery, and the result is the number of deliveries. */
  lemma SendDelivers(events: seq<Event>)
    requires Run(events).Some? && Run(events).value.phase.Ending?
    ensures var s := Run(events).value; s.delivered == s.taken - s.dropped && s.dropped <= s.taken
    ensures var s := Run(events).value; s.nsent == |s.delivered|
  {
    RunKeeps(events);
    var s := Run(events).value;
    assert s.cases[1..1] == [];
    assert s.delivered + s.dropped == s.taken;
  }

  /** With distinct channels, a live subscription is in exactly one of the inbox and the cases, and a waiting
    removal's channel is only among the cases. */
  lemma OnePlace(events: seq<Event>, ch: Chan)
    requires Run(events).Some?
    requires var s := Run(events).value; forall x :: (s.live + s.pending)[x] <= 1
    ensures var s := Run(events).value;
            && (ch in s.live ==> (ch in s.inbox <==> ch !in s.cases))
            && (ch in s.pending ==> ch in s.cases && ch !in s.inbox)
            && (ch != REMOVE_SUB && ch !in s.live && ch !in s.pending ==> ch !in s.inbox && ch !in s.cases)
  {
    RunKeeps(events);
    var s := Run(events).value;
    assert s.cases == [s.cases[0]] + s.cases[1..];
    assert (multiset(s.inbox) + Subs(s.cases))[ch] == (s.live + s.pending)[ch];
    assert ch in s.inbox <==> multiset(s.inbox)[ch] > 0;
    assert ch in s.cases[1..] <==> Subs(s.cases)[ch] > 0;
    if ch in s.live || ch in s.pending {
      assert ch != REMOVE_SUB by {
        assert (s.live + s.pending)[ch] > 0;
      }
    }
  }

  /** With distinct channels, a channel is sent to exactly once when it was taken and not removed before delivery, else
    not at all. */
  lemma DeliversOnce(events: seq<Event>, ch: Chan)
    requires Run(events).Some? && Run(events).value.phase.Ending?
    requires var s := Run(events).value; s.taken[ch] <= 1
    ensures var s := Run(events).value; s.delivered[ch] == if ch in s.taken && ch !in s.dropped then 1 else 0
  {
    SendDelivers(events);
  }

  // ----- Termination of a Send -----

  /** What every step of Send makes smaller, lexicographically. */
  ghost function Rank(s: State): (nat, nat, nat) {
    (s.active + |s.cases|,
     match s.phase case Selecting => 0 case Ending => 0 case Free => 0 case Fast(_) => 1,
     if s.phase.Fast? && s.phase.i < s.active then s.active - s.phase.i else 0)
  }

  ghost predicate Below(a: (nat, nat, nat), b: (nat, nat, nat)) {
    a.0 < b.0 || (a.0 == b.0 && (a.1 < b.1 || (a.1 == b.1 && a.2 < b.2)))
  }

  lemma StepShrinks(s: State, e: Event)
    requires Enabled(s, e) && 1 <= s.active <= |s.cases|
    requires e.SelectRemove? ==> Find(s.cases, e.ch) >= 1
    ensures e.TrySend? || e.FastDone? || e.SelectRemove? || e.SelectSend? ==> Below(Rank(Next(s, e)), Rank(s))
    ensures e.Subscribe? || e.Unsubscribe? ==> Rank(Next(s, e)) == Rank(s)
  {
  }

  /** Each step of a running Send makes the rank smaller, and no step of another goroutine changes it. */
  lemma SendTerminates(s: State, e: Event)
    requires Inv(s) && Enabled(s, e) && !s.phase.Free?
    ensures e.TrySend? || e.FastDone? || e.SelectRemove? || e.SelectSend? ==> Below(Rank(Next(s, e)), Rank(s))
    ensures e.Subscribe? || e.Unsubscribe? ==> Rank(Next(s, e)) == Rank(s)
  {
    if e.SelectRemove? {
      LookupHits(s, e.ch);
    }
    StepShrinks(s, e);
  }

  /** A Send that waits waits for nothing but its receivers: any active channel may take the value next, and in every
    other phase the next step is open. */
  lemma {:induction false} SendGoesOn(s: State)
    requires Inv(s)
    ensures s.phase.Fast? ==> (forall ok :: Enabled(s, TrySend(ok))) || Enabled(s, FastDone)
    ensures s.phase.Selecting? ==> forall ch | ch in s.cases[1..s.active] ::
                exists i: nat :: Enabled(s, SelectSend(i)) && s.cases[i] == ch
    ensures s.phase.Selecting? || s.phase.Free? ==> forall ch | ch in s.pending ::
                Enabled(s, SelectRemove(ch)) || Enabled(s, RemoveDirect(ch))
    ensures s.phase.Selecting? ==> |s.cases[1..s.active]| > 0
    ensures s.phase.Ending? ==> Enabled(s, EndSend)
    ensures s.phase.Free? ==> Enabled(s, BeginSend)
  {
    if s.phase.Selecting? {
      forall ch | ch in s.cases[1..s.active] ensures exists i: nat :: Enabled(s, SelectSend(i)) && s.cases[i] == ch {
        var k: nat :| k < |s.cases[1..s.active]| && s.cases[1..s.active][k] == ch;
        assert Enabled(s, SelectSend(k + 1)) && s.cases[k + 1] == ch;
      }
    }
  }

  // ----- The feed object -----

  /** The bounds a running Send relies on. */
  ghost predicate Bounded(s: State) {
    !s.phase.Free? ==> 1 <= s.active <= |s.cases| && (s.phase.Fast? ==> 1 <= s.phase.i)
  }

  /** In every reachable state the bounds hold and the lookup of a waiting removal hits. */
  lemma ReachableSafe(events: seq<Event>)
    requires Run(events).Some?
    ensures Bounded(Run(events).value)
    ensures forall ch | ch in Run(events).value.pending :: Find(Run(events).value.cases, ch) >= 1
  {
    RunKeeps(events);
    forall ch | ch in Run(events).value.pending ensures Find(Run(events).value.cases, ch) >= 1 {
      LookupHits(Run(events).value, ch);
    }
  }

  /** The feed over an array of cases, of which the first count are in use and the first active are Send's prefix.
    Each method is one atomic step and is proved to compute that step's state. */
  class Feed {
    var cases: array<Chan>
    var count: nat
    var active: nat
    var inbox: seq<Chan>
    var phase: Phase
    var nsent: nat
    ghost var live: multiset<Chan>
    ghost var pending: multiset<Chan>
    ghost var taken: multiset<Chan>
    ghost var delivered: multiset<Chan>
    ghost var dropped: multiset<Chan>

    ghost predicate Shape()
      reads this
    {
      1 <= count <= cases.Length
    }

    ghost function Current(): State
      requires Shape()
      reads this, cases
    {
      State(inbox, cases[..count], active, phase, live, pending, taken, delivered, dropped, nsent)
    }

    constructor ()
      ensures Shape() && fresh(cases) && Current() == INITIAL
    {
      cases := new Chan[1](_ => REMOVE_SUB);
      count, active, inbox, phase, nsent := 1, 1, [], Free, 0;
      live, pending, taken, delivered, dropped := multiset{}, multiset{}, multiset{}, multiset{}, multiset{};
    }

    /** The first case with a channel, or -1. */
    method FindCase(ch: Chan) returns (index: int)
      requires Shape()
      ensures index == Find(cases[..count], ch)
    {
      index := 0;
      while index < count
        invariant 0 <= index <= count
        invariant ch !in cases[..index]
      {
        if cases[index] == ch {
          assert cases[..index] == cases[..count][..index];
          FindIs(cases[..count], ch, index);
          return;
        }
        index := index + 1;
      }
      return -1;
    }

    static lemma FindIs(cs: seq<Chan>, ch: Chan, index: nat)
      requires index < |cs| && cs[index] == ch && ch !in cs[..index]
      ensures Find(cs, ch) == index
    {
      var f := Find(cs, ch);
      assert ch in cs;
    }

    /** Shifts the cases after index one place down. */
    method DeleteCase(index: nat)
      requires Shape() && 0 < index < count && count > 1
      modifies this`count, cases
      ensures Shape() && count == old(count) - 1
      ensures cases[..count] == Delete(old(cases[..count]), index)
      ensures forall j | 0 <= j < count :: cases[j] == old(if j < index then cases[j] else cases[j + 1])
    {
      var k := index;
      ghost var was := cases[..count];
      while k < count - 1
        invariant Shape() && count == old(count) && cases == old(cases)
        invariant index <= k <= count - 1
        invariant forall j | 0 <= j < index :: cases[j] == was[j]
        invariant forall j | index <= j < k :: cases[j] == was[j + 1]
        invariant forall j | k <= j < count :: cases[j] == was[j]
      {
        cases[k] := cases[k + 1];
        k := k + 1;
      }
      count := count - 1;
    }

    /** Moves a delivered case out of Send's prefix. */
    method DeactivateCase(index: nat)
      requires Shape() && 0 < index < active <= count
      modifies this`active, cases
      ensures Shape() && active == old(active) - 1
      ensures cases[..count] == Deactivate(old(cases[..count]), old(active), index)
      ensures multiset(cases[..count]) == multiset(old(cases[..count]))
    {
      var last := active - 1;
      cases[index], cases[last] := cases[last], cases[index];
      active := last;
    }

    method DoSubscribe(ch: Chan)
      requires Shape() && Enabled(Current(), Subscribe(ch))
      modifies this
      ensures Shape() && cases == old(cases) && Current() == Next(old(Current()), Subscribe(ch))
      ensures inbox == old(inbox) + [ch] && live == old(live) + multiset{ch}
    {
      inbox := inbox + [ch];
      live := live + multiset{ch};
    }

    /** The first half of remove: the inbox is searched; on a miss the removal waits for Send or for the lock. */
    method DoUnsubscribe(ch: Chan) returns (done: bool)
      requires Shape() && Enabled(Current(), Unsubscribe(ch))
      modifies this
      ensures Shape() && cases == old(cases) && Current() == Next(old(Current()), Unsubscribe(ch))
      ensures done <==> ch in old(inbox)
      ensures live == old(live) - multiset{ch}
      ensures done ==> multiset(inbox) == multiset(old(inbox)) - multiset{ch} && pending == old(pending)
      ensures !done ==> inbox == old(inbox) && pending == old(pending) + multiset{ch}
    {
      var index := 0;
      while index < |inbox| && inbox[index] != ch
        invariant 0 <= index <= |inbox|
        invariant ch !in inbox[..index]
      {
        index := index + 1;
      }
      live := live - multiset{ch};
      if index < |inbox| {
        FindIs(inbox, ch, index);
        DeletesOne(inbox, ch);
        inbox := inbox[..index] + inbox[index + 1..];
        return true;
      }
      assert inbox[..index] == inbox;
      pending := pending + multiset{ch};
      return false;
    }

    /** The second half of remove when no Send is running. */
    method DoRemoveDirect(ch: Chan)
      requires Shape() && Enabled(Current(), RemoveDirect(ch)) && Find(cases[..count], ch) >= 1
      modifies this, cases
      ensures Shape() && cases == old(cases) && Current() == Next(old(Current()), RemoveDirect(ch))
      ensures multiset(cases[..count]) == multiset(old(cases[..count])) - multiset{ch}
      ensures pending == old(pending) - multiset{ch}
    {
      DeletesOne(cases[..count], ch);
      var index := DropCase(ch);
    }

    /** Finds a waiting removal's case and deletes it. */
    method DropCase(ch: Chan) returns (index: int)
      requires Shape() && Find(cases[..count], ch) >= 1
      modifies this`count, this`pending, cases
      ensures Shape() && index == Find(old(cases[..count]), ch)
      ensures cases[..count] == DeleteFound(old(cases[..count]), ch) && pending == old(pending) - multiset{ch}
    {
      index := FindCase(ch);
      DeleteCase(index);
      pending := pending - multiset{ch};
    }

    /** Takes the lock and moves the inbox to the cases. */
    method DoBeginSend()
      requires Shape() && Enabled(Current(), BeginSend)
      modifies this
      ensures Shape() && fresh(cases) && Current() == Next(old(Current()), BeginSend)
      ensures cases[..count] == old(cases[..count]) + old(inbox) && active == count && inbox == []
      ensures phase == Fast(1) && nsent == 0
    {
      ghost var s := Current();
      MoveInbox();
      active, phase, nsent := count, Fast(1), 0;
      taken, delivered, dropped := multiset(cases[..count][1..]), multiset{}, multiset{};
      BeginState(s, cases[..count], taken);
    }

    /** Appends the inbox to the cases, in a new array. */
    method MoveInbox()
      requires Shape()
      modifies this`cases, this`count, this`inbox
      ensures Shape() && fresh(cases) && inbox == []
      ensures cases[..count] == old(cases[..count]) + old(inbox)
    {
      var grown := Append();
      cases := grown;
      count := grown.Length;
      inbox := [];
      assert cases[..count] == grown[..];
    }

    /** The state at the start of a Send. */
    static lemma {:induction false} BeginState(s: State, cs: seq<Chan>, taken: multiset<Chan>)
      requires cs == s.cases + s.inbox && |cs| > 0 && taken == multiset(cs[1..])
      ensures Next(s, BeginSend) ==
              State([], cs, |cs|, Fast(1), s.live, s.pending, taken, multiset{}, multiset{}, 0)
    {
    }

    /** A new array with the cases and the inbox. */
    method Append() returns (grown: array<Chan>)
      requires Shape()
      ensures fresh(grown) && grown.Length == count + |inbox| && grown[..] == cases[..count] + inbox
    {
      grown := new Chan[count + |inbox|](_ => REMOVE_SUB);
      for k := 0 to count
        invariant forall j | 0 <= j < k :: grown[j] == cases[j]
      {
        grown[k] := cases[k];
      }
      for k := 0 to |inbox|
        invariant forall j | 0 <= j < count :: grown[j] == cases[j]
        invariant forall j | 0 <= j < k :: grown[count + j] == inbox[j]
      {
        grown[count + k] := inbox[k];
      }
    }

    /** Case i accepts the value. */
    method DeliverCase(i: nat)
      requires Shape() && 0 < i < active <= count
      modifies this`nsent, this`delivered, this`active, cases
      ensures Shape() && Current() == Deliver(old(Current()), i)
      ensures active == old(active) - 1 && nsent == old(nsent) + 1
      ensures cases[active] == old(cases[i]) && (i < active ==> cases[i] == old(cases[active - 1]))
      ensures forall k | 0 <= k < count && k != i && k != active :: cases[k] == old(cases[k])
      ensures multiset(cases[..count]) == multiset(old(cases[..count]))
    {
      nsent := nsent + 1;
      delivered := delivered + multiset{cases[i]};
      DeactivateCase(i);
    }

    /** One iteration of the non-blocking loop: case i either accepts the value and is swapped out, or is skipped. */
    method DoTrySend(ok: bool)
      requires Shape() && Bounded(Current()) && Enabled(Current(), TrySend(ok))
      modifies this, cases
      ensures Shape() && cases == old(cases) && Current() == Next(old(Current()), TrySend(ok))
      ensures ok ==> phase == old(phase) && active == old(active) - 1 && nsent == old(nsent) + 1
      ensures !ok ==> phase == Fast(old(phase.i) + 1) && Current() == old(Current()).(phase := phase)
    {
      if ok {
        DeliverCase(phase.i);
      } else {
        phase := Fast(phase.i + 1);
      }
    }

    /** The whole non-blocking loop, when ready says which channels accept a value without blocking: it sends to
      exactly the ready ones among the active cases. */
    method FastLoop(ready: Chan -> bool)
      requires Shape() && phase == Fast(1) && 1 <= active <= count
      modifies this`phase, this`nsent, this`delivered, this`active, cases
      ensures Shape() && Enabled(Current(), FastDone)
      ensures 1 <= active <= old(active) && cases[old(active)..count] == old(cases[active..count])
      ensures multiset(cases[..count]) == multiset(old(cases[..count]))
      ensures forall k | 1 <= k < active :: !ready(cases[k])
      ensures forall k | active <= k < old(active) :: ready(cases[k])
      ensures nsent - old(nsent) == old(active) - active
    {
      var i := 1;
      while i < active
        invariant Shape() && 1 <= i <= active <= old(active)
        invariant multiset(cases[..count]) == multiset(old(cases[..count]))
        invariant forall k | old(active) <= k < count :: cases[k] == old(cases[k])
        invariant forall k | 1 <= k < i :: !ready(cases[k])
        invariant forall k | active <= k < old(active) :: ready(cases[k])
        invariant nsent - old(nsent) == old(active) - active
        decreases active - i
      {
        i := FastOne(ready, i, old(active));
      }
      phase := Fast(i);
    }

    /** One attempt of the non-blocking loop: place i is revisited after a swap. */
    method FastOne(ready: Chan -> bool, i: nat, ghost top: nat) returns (i': nat)
      requires Shape() && 1 <= i < active <= top <= count
      requires forall k | 1 <= k < i :: !ready(cases[k])
      requires forall k | active <= k < top :: ready(cases[k])
      modifies this`nsent, this`delivered, this`active, cases
      ensures Shape() && 1 <= i' <= active <= top && active - i' < old(active) - i
      ensures multiset(cases[..count]) == multiset(old(cases[..count]))
      ensures forall k | top <= k < count :: cases[k] == old(cases[k])
      ensures forall k | 1 <= k < i' :: !ready(cases[k])
      ensures forall k | active <= k < top :: ready(cases[k])
      ensures nsent - old(nsent) == old(active) - active
    {
      i' := i;
      if ready(cases[i]) {
        DeliverCase(i);
      } else {
        i' := i + 1;
      }
    }

    method DoFastDone()
      requires Shape() && Enabled(Current(), FastDone)
      modifies this`phase
      ensures Shape() && Current() == Next(old(Current()), FastDone)
      ensures phase == if active == 1 then Ending else Selecting
    {
      phase := if active == 1 then Ending else Selecting;
    }

    /** The select receives a removal request; a case that was still active leaves Send's prefix too. */
    method DoSelectRemove(ch: Chan)
      requires Shape() && Enabled(Current(), SelectRemove(ch)) && Find(cases[..count], ch) >= 1
      modifies this, cases
      ensures Shape() && cases == old(cases) && Current() == Next(old(Current()), SelectRemove(ch))
      ensures phase == Fast(1)
    {
      ghost var s := Current();
      var index := DropCase(ch);
      if index >= 0 && index < active {
        active := active - 1;
        dropped := dropped + multiset{ch};
      }
      phase := Fast(1);
      RemovalState(s, ch, index, cases[..count], active, dropped);
    }

    /** The state after a removal inside Send, by the place of the case. */
    static lemma {:induction false} RemovalState(s: State, ch: Chan, index: int, cs: seq<Chan>, active: nat,
                                                 dropped: multiset<Chan>)
      requires index == Find(s.cases, ch) && cs == DeleteFound(s.cases, ch)
      requires if 0 <= index < s.active then active == s.active - 1 && dropped == s.dropped + multiset{ch}
               else active == s.active && dropped == s.dropped
      ensures Next(s, SelectRemove(ch)) ==
                State(s.inbox, cs, active, Fast(1), s.live, s.pending - multiset{ch}, s.taken, s.delivered, dropped,
                      s.nsent)
    {
    }

    /** The select chose case i. */
    method DoSelectSend(i: nat)
      requires Shape() && Bounded(Current()) && Enabled(Current(), SelectSend(i))
      modifies this, cases
      ensures Shape() && cases == old(cases) && Current() == Next(old(Current()), SelectSend(i))
      ensures phase == Fast(1) && active == old(active) - 1 && nsent == old(nsent) + 1
      ensures multiset(cases[..count]) == multiset(old(cases[..count])) && cases[active] == old(cases[i])
    {
      DeliverCase(i);
      phase := Fast(1);
    }

    method DoEndSend() returns (n: nat)
      requires Shape() && Enabled(Current(), EndSend)
      modifies this`phase
      ensures Shape() && Current() == Next(old(Current()), EndSend) && n == nsent && phase.Free?
    {
      phase := Free;
      return nsent;
    }
  }
}
