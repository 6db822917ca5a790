/** The transaction batcher: first-fit assignment of transactions to groups whose members share no storage key. */
module Batchers {
  import opened Wrappers

  type TxHash = nat
  type Key = nat

  /** One access list entry; its storage keys may be missing. */
  datatype Access = Access(storageKeys: Option<seq<Key>>)

  type AccessLists = map<TxHash, seq<Access>>
  type Group = seq<TxHash>

  const MAX_PARALLELIZABLE_GROUPS: nat := 5

  datatype BlockKind = Parallelizable | Sequential

  datatype Block = Block(kind: BlockKind, groupId: nat, transactions: seq<TxHash>)

  function KeysOf(access: Access): seq<Key> {
    if access.storageKeys.Some? then access.storageKeys.value else []
  }

  function SlotsOf(list: seq<Access>): set<Key> {
    set a, k | a in list && k in KeysOf(a) :: k
  }

  lemma SlotsOfMore(list: seq<Access>, i: nat)
    requires i < |list|
    ensures SlotsOf(list[..i + 1]) == SlotsOf(list[..i]) + set k | k in KeysOf(list[i])
  {
    assert list[..i + 1] == list[..i] + [list[i]];
  }

  /** The storage keys of a transaction; none when it has no access list. */
  function Slots(lists: AccessLists, t: TxHash): set<Key> {
    if t in lists then SlotsOf(lists[t]) else {}
  }

  /** A list names a key: one of its entries has storage keys, and the key is among them. */
  ghost predicate Names(list: seq<Access>, k: Key) {
    exists a :: a in list && a.storageKeys.Some? && k in a.storageKeys.value
  }

  /** The slots of a transaction are exactly the keys its access list names. */
  lemma SlotsNamed(lists: AccessLists, t: TxHash, k: Key)
    ensures k in Slots(lists, t) <==> t in lists && Names(lists[t], k)
  {
    if t in lists && Names(lists[t], k) {
      var a :| a in lists[t] && a.storageKeys.Some? && k in a.storageKeys.value;
      assert k in KeysOf(a);
    }
  }

  predicate Collides(lists: AccessLists, t: TxHash, u: TxHash) {
    Slots(lists, t) * Slots(lists, u) != {}
  }

  ghost predicate CollidesWithGroup(lists: AccessLists, t: TxHash, group: Group) {
    exists u :: u in group && Collides(lists, t, u)
  }

  /** No two members share a storage key. */
  ghost predicate Independent(lists: AccessLists, group: Group) {
    forall i, j | 0 <= i < j < |group| :: !Collides(lists, group[i], group[j])
  }

  ghost predicate Known(lists: AccessLists, group: Group) {
    forall t | t in group :: t in lists
  }

  function Flatten(groups: seq<Group>): seq<TxHash> {
    if groups == [] then [] else Flatten(groups[..|groups| - 1]) + groups[|groups| - 1]
  }

  /** Every member of a group collides with some member of each earlier group. */
  ghost predicate FirstFit(lists: AccessLists, groups: seq<Group>) {
    forall j, t, i | 0 <= i < j < |groups| && t in groups[j] :: CollidesWithGroup(lists, t, groups[i])
  }

  /** The groups and the sequential list one epoch of first-fit can produce from the given arrivals. */
  ghost predicate Batch(lists: AccessLists, groups: seq<Group>, sequential: seq<TxHash>, arrivals: seq<TxHash>) {
    && |groups| <= MAX_PARALLELIZABLE_GROUPS
    && (forall g | g in groups :: g != [] && Independent(lists, g) && Known(lists, g))
    && Known(lists, sequential)
    && multiset(Flatten(groups)) + multiset(sequential) == multiset(arrivals)
    && FirstFit(lists, groups)
    && (forall t | t in sequential :: |groups| == MAX_PARALLELIZABLE_GROUPS
                                  && forall i | 0 <= i < |groups| :: CollidesWithGroup(lists, t, groups[i]))
  }

  // ----- First-fit -----

  ghost predicate FirstFree(lists: AccessLists, groups: seq<Group>, t: TxHash, i: nat) {
    && i <= |groups|
    && (forall j | 0 <= j < i :: CollidesWithGroup(lists, t, groups[j]))
    && (i < |groups| ==> !CollidesWithGroup(lists, t, groups[i]))
  }

  lemma {:induction false} FlattenUpdate(groups: seq<Group>, i: nat, t: TxHash)
    requires i < |groups|
    ensures multiset(Flatten(groups[i := groups[i] + [t]])) == multiset(Flatten(groups)) + multiset{t}
  {
    var groups' := groups[i := groups[i] + [t]];
    var last := |groups| - 1;
    if i == last {
      assert groups'[..last] == groups[..last];
    } else {
      FlattenUpdate(groups[..last], i, t);
      assert groups'[..last] == groups[..last][i := groups[i] + [t]];
    }
  }

  lemma ExtendIndependent(lists: AccessLists, group: Group, t: TxHash)
    requires Independent(lists, group) && !CollidesWithGroup(lists, t, group)
    ensures Independent(lists, group + [t])
  {
    forall i, j | 0 <= i < j < |group| + 1 ensures !Collides(lists, (group + [t])[i], (group + [t])[j]) {
      if j == |group| {
        assert group[i] in group;
        assert Slots(lists, t) * Slots(lists, group[i]) == Slots(lists, group[i]) * Slots(lists, t);
      }
    }
  }

  lemma PlaceInGroup(lists: AccessLists, groups: seq<Group>, sequential: seq<TxHash>, arrivals: seq<TxHash>, t: TxHash,
                     i: nat)
    requires Batch(lists, groups, sequential, arrivals) && t in lists && FirstFree(lists, groups, t, i) && i < |groups|
    ensures Batch(lists, groups[i := groups[i] + [t]], sequential, arrivals + [t])
  {
    var groups' := groups[i := groups[i] + [t]];
    ExtendIndependent(lists, groups[i], t);
    FlattenUpdate(groups, i, t);
    FirstFitGrows(lists, groups, t, i);
    MultisetGrows(Flatten(groups), sequential, arrivals, t);
    forall g | g in groups' ensures g != [] && Independent(lists, g) && Known(lists, g) {
      if g == groups'[i] {
        assert groups[i] in groups;
      } else {
        assert g in groups;
      }
    }
    forall u | u in sequential
      ensures |groups'| == MAX_PARALLELIZABLE_GROUPS && forall j | 0 <= j < |groups'| ::
                CollidesWithGroup(lists, u, groups'[j])
    {
      forall j | 0 <= j < |groups'| ensures CollidesWithGroup(lists, u, groups'[j]) {
        StillCollides(lists, u, groups, t, i, j);
      }
    }
  }

  lemma MultisetGrows(flat: seq<TxHash>, sequential: seq<TxHash>, arrivals: seq<TxHash>, t: TxHash)
    requires multiset(flat) + multiset(sequential) == multiset(arrivals)
    ensures (multiset(flat) + multiset{t}) + multiset(sequential) == multiset(arrivals + [t])
    ensures multiset(flat) + multiset(sequential + [t]) == multiset(arrivals + [t])
  {
  }

  /** A group that has grown still collides with whatever collided with it. */
  lemma StillCollides(lists: AccessLists, u: TxHash, groups: seq<Group>, t: TxHash, i: nat, j: nat)
    requires i < |groups| && j < |groups| && CollidesWithGroup(lists, u, groups[j])
    ensures CollidesWithGroup(lists, u, groups[i := groups[i] + [t]][j])
  {
    var v :| v in groups[j] && Collides(lists, u, v);
    assert v in groups[i := groups[i] + [t]][j];
  }

  lemma FirstFitGrows(lists: AccessLists, groups: seq<Group>, t: TxHash, i: nat)
    requires FirstFit(lists, groups) && FirstFree(lists, groups, t, i) && i < |groups|
    ensures FirstFit(lists, groups[i := groups[i] + [t]])
  {
    var groups' := groups[i := groups[i] + [t]];
    forall j, u, h | 0 <= h < j < |groups'| && u in groups'[j] ensures CollidesWithGroup(lists, u, groups'[h]) {
      assert CollidesWithGroup(lists, u, groups[h]) by {
        if u !in groups[j] {
          assert j == i && u == t;
        }
      }
      StillCollides(lists, u, groups, t, i, h);
    }
  }

  lemma PlaceInNewGroup(lists: AccessLists, groups: seq<Group>, sequential: seq<TxHash>, arrivals: seq<TxHash>,
                        t: TxHash)
    requires Batch(lists, groups, sequential, arrivals) && t in lists && FirstFree(lists, groups, t, |groups|)
    requires |groups| < MAX_PARALLELIZABLE_GROUPS
    ensures Batch(lists, groups + [[t]], sequential, arrivals + [t])
  {
    var groups' := groups + [[t]];
    assert groups'[..|groups|] == groups;
  }

  lemma PlaceInSequence(lists: AccessLists, groups: seq<Group>, sequential: seq<TxHash>, arrivals: seq<TxHash>,
                        t: TxHash)
    requires Batch(lists, groups, sequential, arrivals) && t in lists && FirstFree(lists, groups, t, |groups|)
    requires |groups| == MAX_PARALLELIZABLE_GROUPS
    ensures Batch(lists, groups, sequential + [t], arrivals + [t])
  {
  }

  // ----- Few collisions leave the sequential list empty -----

  ghost predicate Distinct(ts: seq<TxHash>) {
    forall i, j | 0 <= i < j < |ts| :: ts[i] != ts[j]
  }

  /** The arrivals a transaction collides with, besides itself. */
  ghost function Rivals(lists: AccessLists, arrivals: seq<TxHash>, t: TxHash): set<TxHash> {
    set u | u in arrivals && u != t && Collides(lists, t, u)
  }

  lemma {:induction false} DistinctCounts(ts: seq<TxHash>, t: TxHash)
    requires Distinct(ts)
    ensures multiset(ts)[t] <= 1
  {
    if ts != [] {
      var init, last := ts[..|ts| - 1], ts[|ts| - 1];
      assert ts == init + [last];
      DistinctCounts(init, t);
      assert last !in init;
    }
  }

  lemma {:induction false} FlattenPrefix(groups: seq<Group>, k: nat)
    requires k <= |groups|
    ensures multiset(Flatten(groups[..k])) <= multiset(Flatten(groups))
    decreases |groups|
  {
    if k < |groups| {
      FlattenPrefix(groups[..|groups| - 1], k);
      assert groups[..|groups| - 1][..k] == groups[..k];
    } else {
      assert groups[..k] == groups;
    }
  }

  /** A transaction that collides with each of k groups, none of which holds it, has k different rivals. */
  lemma {:induction false} ManyRivals(lists: AccessLists, groups: seq<Group>, t: TxHash) returns (rivals: set<TxHash>)
    requires forall i | 0 <= i < |groups| :: CollidesWithGroup(lists, t, groups[i])
    requires forall u :: multiset(Flatten(groups))[u] <= 1
    requires t !in Flatten(groups)
    ensures |rivals| == |groups|
    ensures forall u | u in rivals :: u in Flatten(groups) && u != t && Collides(lists, t, u)
  {
    rivals := {};
    if groups != [] {
      var init, last := groups[..|groups| - 1], groups[|groups| - 1];
      forall u ensures multiset(Flatten(init))[u] <= 1 {
        assert multiset(Flatten(groups))[u] == multiset(Flatten(init))[u] + multiset(last)[u];
      }
      assert forall i | 0 <= i < |init| :: init[i] == groups[i];
      rivals := ManyRivals(lists, init, t);
      var u :| u in last && Collides(lists, t, u);
      assert multiset(Flatten(groups))[u] == multiset(Flatten(init))[u] + multiset(last)[u];
      assert u in Flatten(groups);
      assert u !in rivals;
      rivals := rivals + {u};
    }
  }

  lemma SubsetSize(a: set<TxHash>, b: set<TxHash>)
    requires a <= b
    ensures |a| <= |b|
  {
    assert b == a + (b - a);
  }

  /** A transaction outside some groups that collides with each of them has at least as many rivals among the
    arrivals. */
  lemma RivalsBound(lists: AccessLists, groups: seq<Group>, rest: multiset<TxHash>, arrivals: seq<TxHash>, t: TxHash)
    requires Distinct(arrivals)
    requires multiset(Flatten(groups)) + rest <= multiset(arrivals) && t in rest
    requires forall i | 0 <= i < |groups| :: CollidesWithGroup(lists, t, groups[i])
    ensures |Rivals(lists, arrivals, t)| >= |groups|
  {
    AtMostOnce(multiset(Flatten(groups)), rest, arrivals);
    var rivals := ManyRivals(lists, groups, t);
    forall u | u in rivals ensures u in Rivals(lists, arrivals, t) {
      FlatArrived(Flatten(groups), rest, arrivals, u);
    }
    SubsetSize(rivals, Rivals(lists, arrivals, t));
  }

  lemma AtMostOnce(a: multiset<TxHash>, b: multiset<TxHash>, arrivals: seq<TxHash>)
    requires Distinct(arrivals) && a + b <= multiset(arrivals)
    ensures forall u :: a[u] + b[u] <= 1
  {
    forall u ensures a[u] + b[u] <= 1 {
      DistinctCounts(arrivals, u);
      CountsBelow(a, b, multiset(arrivals), u);
    }
  }

  lemma FlatArrived(flat: seq<TxHash>, rest: multiset<TxHash>, arrivals: seq<TxHash>, u: TxHash)
    requires multiset(flat) + rest <= multiset(arrivals) && u in flat
    ensures u in arrivals
  {
    CountsBelow(multiset(flat), rest, multiset(arrivals), u);
    assert u in multiset(flat) && u in multiset(arrivals);
  }

  lemma CountsBelow(a: multiset<TxHash>, b: multiset<TxHash>, c: multiset<TxHash>, u: TxHash)
    requires a + b <= c
    ensures a[u] + b[u] <= c[u]
  {
    assert (a + b)[u] <= c[u];
  }

  /** A transaction goes to the sequential list only if it collides with at least five others of the epoch. */
  lemma SequentialNeedsRivals(lists: AccessLists, groups: seq<Group>, sequential: seq<TxHash>, arrivals: seq<TxHash>,
                              t: TxHash)
    requires Batch(lists, groups, sequential, arrivals) && Distinct(arrivals) && t in sequential
    ensures |Rivals(lists, arrivals, t)| >= 5
  {
    RivalsBound(lists, groups, multiset(sequential), arrivals, t);
  }

  /** Greedy colouring: when every transaction collides with at most d others, d + 1 groups are enough. */
  lemma GroupsBound(lists: AccessLists, groups: seq<Group>, sequential: seq<TxHash>, arrivals: seq<TxHash>, d: nat)
    requires Batch(lists, groups, sequential, arrivals) && Distinct(arrivals)
    requires forall t | t in arrivals :: |Rivals(lists, arrivals, t)| <= d
    ensures |groups| <= d + 1
    ensures d < 5 ==> sequential == []
  {
    if d < MAX_PARALLELIZABLE_GROUPS && sequential != [] {
      var t := sequential[0];
      assert multiset(sequential)[t] > 0 && multiset(arrivals)[t] > 0;
      SequentialNeedsRivals(lists, groups, sequential, arrivals, t);
      assert false;
    }
    if groups != [] {
      var init, last := groups[..|groups| - 1], groups[|groups| - 1];
      assert last in groups;
      var t := last[0];
      assert t in groups[|groups| - 1];
      forall i | 0 <= i < |init| ensures CollidesWithGroup(lists, t, init[i]) {
        assert init[i] == groups[i];
      }
      assert multiset(Flatten(groups))[t] > 0 && multiset(arrivals)[t] > 0;
      RivalsBound(lists, init, multiset(last), arrivals, t);
    }
  }

  // ----- A changed access list -----

  ghost predicate AllIndependent(lists: AccessLists, groups: seq<Group>) {
    forall i | 0 <= i < |groups| :: Independent(lists, groups[i])
  }

  /** A list for a transaction avoids the keys of all other members of a group, and has none if the group holds the
    transaction twice. */
  ghost predicate Avoids(lists: AccessLists, group: Group, t: TxHash, list: seq<Access>) {
    && (forall u | u in group && u != t :: SlotsOf(list) !! Slots(lists, u))
    && (Repeats(group, t) ==> SlotsOf(list) == {})
  }

  /** The list avoids the other members of every group that holds the transaction. */
  ghost predicate ListFits(lists: AccessLists, groups: seq<Group>, t: TxHash, list: seq<Access>) {
    forall i | 0 <= i < |groups| && t in groups[i] :: Avoids(lists, groups[i], t, list)
  }

  predicate Repeats(group: Group, t: TxHash) {
    exists i, j :: 0 <= i < j < |group| && group[i] == t && group[j] == t
  }

  /** The batcher's groups are safe for the lists they were formed with. When the list of a transaction is replaced, a
    group stays independent if and only if it does not hold the transaction or the new list avoids its other members. */
  lemma ListReplaced(lists: AccessLists, group: Group, t: TxHash, list: seq<Access>)
    requires Independent(lists, group)
    ensures Independent(lists[t := list], group) <==> t !in group || Avoids(lists, group, t, list)
  {
    var lists' := lists[t := list];
    assert Slots(lists', t) == SlotsOf(list) && forall u | u != t :: Slots(lists', u) == Slots(lists, u);
    if t in group && Independent(lists', group) {
      var i :| 0 <= i < |group| && group[i] == t;
      forall u | u in group && u != t ensures SlotsOf(list) !! Slots(lists, u) {
        var j :| 0 <= j < |group| && group[j] == u;
        Apart(lists', group, i, j);
      }
      if Repeats(group, t) {
        var j, k :| 0 <= j < k < |group| && group[j] == t && group[k] == t;
        Apart(lists', group, j, k);
      }
    }
    if t !in group || Avoids(lists, group, t, list) {
      forall i, j | 0 <= i < j < |group| ensures !Collides(lists', group[i], group[j]) {
        Overlap(Slots(lists', group[i]), Slots(lists', group[j]));
        assert group[i] in group && group[j] in group && !Collides(lists, group[i], group[j]);
      }
    }
  }

  /** Two members of an independent group have no key in common. */
  lemma Apart(lists: AccessLists, group: Group, i: nat, j: nat)
    requires Independent(lists, group) && i < |group| && j < |group| && i != j
    ensures Slots(lists, group[i]) !! Slots(lists, group[j])
  {
    var a, b := if i < j then i else j, if i < j then j else i;
    assert !Collides(lists, group[a], group[b]);
    Overlap(Slots(lists, group[a]), Slots(lists, group[b]));
  }

  lemma Overlap(a: set<Key>, b: set<Key>)
    ensures a * b != {} <==> !(a !! b)
  {
    if !(a !! b) {
      var k :| k in a && k in b;
      assert k in a * b;
    }
  }

  // ----- The batcher object -----

  class Batcher {
    var transactionQueue: seq<TxHash>
    var accessLists: AccessLists
    var isProcessing: bool
    var parallelizableGroups: seq<Group>
    var sequentialGroup: seq<TxHash>
    var historicalParallelizableGroups: seq<Group>
    var historicalSequentialGroup: seq<TxHash>
    ghost var arrivals: seq<TxHash>            // since the last clean
    ghost var historicalArrivals: seq<TxHash>  // between the two last cleans

    /** Every transaction the batcher holds has an access list, and there are no more groups than allowed. */
    ghost predicate Ready()
      reads this
    {
      && |parallelizableGroups| <= MAX_PARALLELIZABLE_GROUPS && !isProcessing && Known(accessLists, transactionQueue)
      && (forall g | g in parallelizableGroups :: Known(accessLists, g))
      && (forall g | g in historicalParallelizableGroups :: Known(accessLists, g))
    }

    /** The current and the previous epoch's groups are what first-fit makes of their arrivals. */
    ghost predicate Valid()
      reads this
    {
      && Ready()
      && Batch(accessLists, parallelizableGroups, sequentialGroup, arrivals)
      && Batch(accessLists, historicalParallelizableGroups, historicalSequentialGroup, historicalArrivals)
    }

    constructor ()
      ensures Valid() && arrivals == [] && parallelizableGroups == [] && sequentialGroup == [] && transactionQueue == []
      ensures accessLists == map[]
    {
      transactionQueue, accessLists, isProcessing := [], map[], false;
      parallelizableGroups, sequentialGroup, historicalParallelizableGroups, historicalSequentialGroup :=
        [], [], [], [];
      arrivals, historicalArrivals := [], [];
    }

    /** Whether a transaction shares a storage key with a member of a group. */
    method HasCollision(txHash: TxHash, group: Group) returns (collides: bool)
      requires txHash in accessLists && Known(accessLists, group)
      ensures collides <==> CollidesWithGroup(accessLists, txHash, group)
      // In terms of the lists: some member's list names a key that the transaction's list names.
      ensures collides <==>
                exists u, k :: u in group && Names(accessLists[txHash], k) && Names(accessLists[u], k)
    {
      CollidesNamed(txHash, group);
      var txSlots := CollectSlots(accessLists[txHash]);
      assert txSlots == Slots(accessLists, txHash);
      var i := 0;
      while i < |group|
        invariant 0 <= i <= |group|
        invariant forall j | 0 <= j < i :: !Collides(accessLists, txHash, group[j])
      {
        var hit := AnySlotIn(accessLists[group[i]], txSlots);
        assert group[i] in group;
        Overlap(txSlots, Slots(accessLists, group[i]));
        if hit {
          return true;
        }
        i := i + 1;
      }
      return false;
    }

    lemma CollidesNamed(txHash: TxHash, group: Group)
      requires txHash in accessLists && Known(accessLists, group)
      ensures CollidesWithGroup(accessLists, txHash, group) <==>
                exists u, k :: u in group && Names(accessLists[txHash], k) && Names(accessLists[u], k)
    {
      forall u, k | u in group
        ensures k in Slots(accessLists, txHash) && k in Slots(accessLists, u) <==>
                Names(accessLists[txHash], k) && Names(accessLists[u], k)
      {
        SlotsNamed(accessLists, txHash, k);
        SlotsNamed(accessLists, u, k);
      }
      if CollidesWithGroup(accessLists, txHash, group) {
        var u :| u in group && Collides(accessLists, txHash, u);
        var k :| k in Slots(accessLists, txHash) * Slots(accessLists, u);
        assert Names(accessLists[txHash], k) && Names(accessLists[u], k);
      }
      if u, k :| u in group && Names(accessLists[txHash], k) && Names(accessLists[u], k) {
        assert k in Slots(accessLists, txHash) * Slots(accessLists, u);
        assert Collides(accessLists, txHash, u);
      }
    }

    static method CollectSlots(list: seq<Access>) returns (slots: set<Key>)
      ensures slots == SlotsOf(list)
    {
      slots := {};
      for i := 0 to |list|
        invariant slots == SlotsOf(list[..i])
      {
        var keys := KeysOf(list[i]);
        for j := 0 to |keys|
          invariant slots == SlotsOf(list[..i]) + set k | k in keys[..j]
        {
          slots := slots + {keys[j]};
        }
        SlotsOfMore(list, i);
        assert keys[..|keys|] == keys;
      }
      assert list[..|list|] == list;
    }

    static method AnySlotIn(list: seq<Access>, slots: set<Key>) returns (hit: bool)
      ensures hit <==> !(SlotsOf(list) !! slots)
    {
      for i := 0 to |list|
        invariant SlotsOf(list[..i]) !! slots
      {
        var keys := KeysOf(list[i]);
        for j := 0 to |keys|
          invariant forall k | k in keys[..j] :: k !in slots
        {
          if keys[j] in slots {
            assert list[i] in list && keys[j] in KeysOf(list[i]);
            return true;
          }
        }
        SlotsOfMore(list, i);
      }
      assert list[..|list|] == list;
      return false;
    }

    /** The first group a transaction does not collide with, or the number of groups. */
    method FindFree(txHash: TxHash) returns (i: nat)
      requires txHash in accessLists && forall g | g in parallelizableGroups :: Known(accessLists, g)
      ensures FirstFree(accessLists, parallelizableGroups, txHash, i)
    {
      i := 0;
      while i < |parallelizableGroups|
        invariant 0 <= i <= |parallelizableGroups|
        invariant forall j | 0 <= j < i :: CollidesWithGroup(accessLists, txHash, parallelizableGroups[j])
      {
        assert parallelizableGroups[i] in parallelizableGroups;
        var collides := HasCollision(txHash, parallelizableGroups[i]);
        if !collides {
          break;
        }
        i := i + 1;
      }
    }

    /** Assigns one transaction: to the first group it does not collide with, else to a new group while there are
      fewer than five, else to the sequential list. */
    method Assign(txHash: TxHash)
      requires txHash in accessLists && forall g | g in parallelizableGroups :: Known(accessLists, g)
      modifies this`parallelizableGroups, this`sequentialGroup, this`arrivals
      ensures arrivals == old(arrivals) + [txHash]
      ensures exists i :: FirstFree(accessLists, old(parallelizableGroups), txHash, i)
                && Placed(old(parallelizableGroups), old(sequentialGroup), txHash, i, parallelizableGroups,
                          sequentialGroup)
      // It goes to the sequential list exactly when there are five groups and it collides with each of them.
      ensures sequentialGroup == old(sequentialGroup) + [txHash] <==>
                && |old(parallelizableGroups)| >= 5
                && forall g | g in old(parallelizableGroups) :: CollidesWithGroup(accessLists, txHash, g)
      ensures |parallelizableGroups| > |old(parallelizableGroups)| <==>
                && |old(parallelizableGroups)| < 5
                && forall g | g in old(parallelizableGroups) :: CollidesWithGroup(accessLists, txHash, g)
      ensures (parallelizableGroups, sequentialGroup) ==
                Put(accessLists, old(parallelizableGroups), old(sequentialGroup), txHash)
      ensures Batch(accessLists, old(parallelizableGroups), old(sequentialGroup), old(arrivals)) ==>
                Batch(accessLists, parallelizableGroups, sequentialGroup, arrivals)
    {
      var i := FindFree(txHash);
      PutBatch(accessLists, parallelizableGroups, sequentialGroup, arrivals, txHash);
      FirstFreeUnique(accessLists, parallelizableGroups, txHash, i);
      ghost var groups, sequential := parallelizableGroups, sequentialGroup;
      if i < |parallelizableGroups| {
        parallelizableGroups := parallelizableGroups[i := parallelizableGroups[i] + [txHash]];
      } else if |parallelizableGroups| < MAX_PARALLELIZABLE_GROUPS {
        parallelizableGroups := parallelizableGroups + [[txHash]];
      } else {
        sequentialGroup := sequentialGroup + [txHash];
      }
      arrivals := arrivals + [txHash];
      assert FirstFree(accessLists, groups, txHash, i)
             && Placed(groups, sequential, txHash, i, parallelizableGroups, sequentialGroup);
    }

    /** Assigns every queued transaction in order and clears the queue. */
    method ProcessTransactionQueue()
      requires Ready()
      modifies this`transactionQueue, this`isProcessing, this`parallelizableGroups, this`sequentialGroup, this`arrivals
      ensures Ready() && transactionQueue == [] && arrivals == old(arrivals) + old(transactionQueue)
      ensures (parallelizableGroups, sequentialGroup) ==
              PutAll(accessLists, old(parallelizableGroups), old(sequentialGroup), old(transactionQueue))
      ensures old(Valid()) ==> Valid()
    {
      if isProcessing || |transactionQueue| == 0 {
        return;
      }
      isProcessing := true;
      AssignAll(transactionQueue);
      transactionQueue := [];
      isProcessing := false;
    }

    /** The loop of ProcessTransactionQueue. */
    method AssignAll(queue: seq<TxHash>)
      requires Known(accessLists, queue) && |parallelizableGroups| <= MAX_PARALLELIZABLE_GROUPS
      requires forall g | g in parallelizableGroups :: Known(accessLists, g)
      modifies this`parallelizableGroups, this`sequentialGroup, this`arrivals
      ensures |parallelizableGroups| <= MAX_PARALLELIZABLE_GROUPS && forall g | g in parallelizableGroups ::
                Known(accessLists, g)
      ensures arrivals == old(arrivals) + queue
      ensures (parallelizableGroups, sequentialGroup) ==
                PutAll(accessLists, old(parallelizableGroups), old(sequentialGroup), queue)
      ensures Batch(accessLists, old(parallelizableGroups), old(sequentialGroup), old(arrivals)) ==>
                Batch(accessLists, parallelizableGroups, sequentialGroup, arrivals)
    {
      ghost var groups, sequential, before := parallelizableGroups, sequentialGroup, arrivals;
      var i := 0;
      while i < |queue|
        invariant 0 <= i <= |queue|
        invariant arrivals == before + queue[..i]
        invariant (parallelizableGroups, sequentialGroup) == PutAll(accessLists, groups, sequential, queue[..i])
      {
        AssignNext(queue, i, groups, sequential);
        assert before + queue[..i] + [queue[i]] == before + queue[..i + 1];
        i := i + 1;
      }
      assert queue[..i] == queue;
      PutAllKnown(accessLists, groups, sequential, queue);
      PutAllBatch(accessLists, groups, sequential, before, queue);
    }

    /** One iteration of AssignAll. */
    method AssignNext(queue: seq<TxHash>, i: nat, ghost groups: seq<Group>, ghost sequential: seq<TxHash>)
      requires i < |queue| && Known(accessLists, queue)
      requires |groups| <= MAX_PARALLELIZABLE_GROUPS && forall g | g in groups :: Known(accessLists, g)
      requires (parallelizableGroups, sequentialGroup) == PutAll(accessLists, groups, sequential, queue[..i])
      modifies this`parallelizableGroups, this`sequentialGroup, this`arrivals
      ensures (parallelizableGroups, sequentialGroup) == PutAll(accessLists, groups, sequential, queue[..i + 1])
      ensures arrivals == old(arrivals) + [queue[i]]
    {
      PutAllKnown(accessLists, groups, sequential, queue[..i]);
      Assign(queue[i]);
      assert queue[..i + 1][..i] == queue[..i];
    }

    /** Records the access list of a pending transaction, queues it and processes the queue. A transaction that comes
      again with the list it has keeps all groups valid; what another list does, the lemma ListChanged says. */
    method AddTransaction(txHash: TxHash, list: seq<Access>)
      requires Ready()
      modifies this
      ensures Ready() && transactionQueue == [] && accessLists == old(accessLists)[txHash := list]
      ensures arrivals == old(arrivals) + (old(transactionQueue) + [txHash])
      ensures (parallelizableGroups, sequentialGroup) ==
              PutAll(accessLists, old(parallelizableGroups), old(sequentialGroup), old(transactionQueue) + [txHash])
      ensures historicalParallelizableGroups == old(historicalParallelizableGroups)
      ensures historicalSequentialGroup == old(historicalSequentialGroup)
      ensures old(Valid()) && (txHash in old(accessLists) ==> old(accessLists)[txHash] == list) ==> Valid()
    {
      Record(txHash, list);
      if !isProcessing {
        ProcessTransactionQueue();
      }
    }

    /** Stores an access list and queues its transaction. */
    method Record(txHash: TxHash, list: seq<Access>)
      requires Ready()
      modifies this`accessLists, this`transactionQueue
      ensures Ready() && accessLists == old(accessLists)[txHash := list]
      ensures transactionQueue == old(transactionQueue) + [txHash]
      ensures old(Valid()) && (txHash in old(accessLists) ==> old(accessLists)[txHash] == list) ==> Valid()
    {
      if Valid() && (txHash in accessLists ==> accessLists[txHash] == list) {
        MoreLists(accessLists, txHash, list, parallelizableGroups, sequentialGroup, arrivals);
        MoreLists(accessLists, txHash, list, historicalParallelizableGroups, historicalSequentialGroup,
                  historicalArrivals);
      }
      accessLists := accessLists[txHash := list];
      transactionQueue := transactionQueue + [txHash];
    }

    /** Starts a new epoch; the current groups become the historical ones. */
    method CleanGroups()
      requires Ready()
      modifies this
      ensures Ready() && (old(Valid()) ==> Valid())
      ensures parallelizableGroups == [] && sequentialGroup == [] && arrivals == []
      ensures historicalParallelizableGroups == old(parallelizableGroups)
              && historicalSequentialGroup == old(sequentialGroup)
      ensures historicalArrivals == old(arrivals)
      ensures accessLists == old(accessLists) && transactionQueue == old(transactionQueue)
    {
      historicalParallelizableGroups, historicalSequentialGroup, historicalArrivals :=
        parallelizableGroups, sequentialGroup, arrivals;
      parallelizableGroups, sequentialGroup, arrivals := [], [], [];
    }

    /** The parallel part of the answer. */
    method ParallelBlocks() returns (blocks: seq<Block>)
      requires |parallelizableGroups| <= MAX_PARALLELIZABLE_GROUPS
      ensures var fill := Fill(parallelizableGroups, historicalParallelizableGroups);
              && |blocks| == |fill|
              && forall i | 0 <= i < |fill| :: blocks[i] == Block(Parallelizable, i + 1, fill[i])
    {
      blocks := [];
      ghost var groups, fill := parallelizableGroups, Fill(parallelizableGroups, historicalParallelizableGroups);
      for i := 0 to |parallelizableGroups|
        invariant blocks == seq(i, k requires 0 <= k < |groups| => Block(Parallelizable, k + 1, groups[k]))
      {
        blocks := blocks + [Block(Parallelizable, i + 1, parallelizableGroups[i])];
      }
      if |parallelizableGroups| < MAX_PARALLELIZABLE_GROUPS {
        var remainingSlots := MAX_PARALLELIZABLE_GROUPS - |parallelizableGroups|;
        var i := 0;
        while i < remainingSlots && i < |historicalParallelizableGroups|
          invariant 0 <= i <= remainingSlots && i <= |historicalParallelizableGroups|
          invariant blocks == seq(|groups| + i, k requires 0 <= k < |fill| => Block(Parallelizable, k + 1, fill[k]))
        {
          blocks := blocks + [Block(Parallelizable, |parallelizableGroups| + i + 1, historicalParallelizableGroups[i])];
          i := i + 1;
        }
      }
      assert |blocks| == |fill|;
    }

    /** The /blocks answer: the current groups, filled up to five with historical ones, then one sequential block. */
    method Blocks() returns (blocks: seq<Block>)
      requires Ready()
      ensures AllIndependent(accessLists, parallelizableGroups)
              && AllIndependent(accessLists, historicalParallelizableGroups) ==>
                forall b | b in blocks && b.kind == Parallelizable :: Independent(accessLists, b.transactions)
      ensures forall i | 0 <= i < |blocks| :: blocks[i].groupId == i + 1
      ensures var fill := Fill(parallelizableGroups, historicalParallelizableGroups);
              var tail := if sequentialGroup != [] then [sequentialGroup]
                          else if historicalSequentialGroup != [] then [historicalSequentialGroup]
                          else [];
              && |fill| == (if |parallelizableGroups| + |historicalParallelizableGroups| <= 5
                            then |parallelizableGroups| + |historicalParallelizableGroups| else 5)
              && |blocks| == |fill| + |tail|
              && (forall i | 0 <= i < |fill| :: blocks[i].kind == Parallelizable && blocks[i].transactions == fill[i])
              && (tail != [] ==> blocks[|fill|].kind == Sequential && blocks[|fill|].transactions == tail[0])
    {
      ghost var fill := Fill(parallelizableGroups, historicalParallelizableGroups);
      blocks := ParallelBlocks();
      if AllIndependent(accessLists, parallelizableGroups)
         && AllIndependent(accessLists, historicalParallelizableGroups) {
        FillIndependent(accessLists, parallelizableGroups, historicalParallelizableGroups);
      }
      if |sequentialGroup| > 0 {
        blocks := blocks + [Block(Sequential, |blocks| + 1, sequentialGroup)];
      } else if |historicalSequentialGroup| > 0 {
        blocks := blocks + [Block(Sequential, |blocks| + 1, historicalSequentialGroup)];
      }
    }
  }

  /** The current groups followed by as many historical ones as fit. */
  ghost function Fill(groups: seq<Group>, historical: seq<Group>): (fill: seq<Group>)
    ensures |groups| <= MAX_PARALLELIZABLE_GROUPS ==> |fill| <= MAX_PARALLELIZABLE_GROUPS
  {
    var slots := if |groups| < MAX_PARALLELIZABLE_GROUPS then MAX_PARALLELIZABLE_GROUPS - |groups| else 0;
    groups + historical[..if slots < |historical| then slots else |historical|]
  }

  lemma FillIndependent(lists: AccessLists, groups: seq<Group>, historical: seq<Group>)
    requires AllIndependent(lists, groups) && AllIndependent(lists, historical)
    ensures AllIndependent(lists, Fill(groups, historical))
  {
  }

  /** How the groups and the sequential list change when a transaction's first free group is number i. */
  ghost predicate Placed(groups: seq<Group>, sequential: seq<TxHash>, t: TxHash, i: nat, groups': seq<Group>,
                         sequential': seq<TxHash>)
  {
    if i < |groups| then groups' == groups[i := groups[i] + [t]] && sequential' == sequential
    else if |groups| < MAX_PARALLELIZABLE_GROUPS then groups' == groups + [[t]] && sequential' == sequential
    else groups' == groups && sequential' == sequential + [t]
  }

  /** The number of the first group that a transaction does not collide with, or the number of groups. */
  ghost function FirstFreeIndex(lists: AccessLists, groups: seq<Group>, t: TxHash): (i: nat)
    ensures FirstFree(lists, groups, t, i)
  {
    if groups == [] then 0
    else
      var last := |groups| - 1;
      var i := FirstFreeIndex(lists, groups[..last], t);
      assert forall j | 0 <= j < last :: groups[..last][j] == groups[j];
      if i < last || !CollidesWithGroup(lists, t, groups[last]) then i else |groups|
  }

  lemma FirstFreeUnique(lists: AccessLists, groups: seq<Group>, t: TxHash, i: nat)
    requires FirstFree(lists, groups, t, i)
    ensures i == FirstFreeIndex(lists, groups, t)
  {
  }

  /** First-fit for one transaction, and for a queue of them. */
  ghost function Put(lists: AccessLists, groups: seq<Group>, sequential: seq<TxHash>,
                     t: TxHash): (seq<Group>, seq<TxHash>)
  {
    var i := FirstFreeIndex(lists, groups, t);
    if i < |groups| then (groups[i := groups[i] + [t]], sequential)
    else if |groups| < MAX_PARALLELIZABLE_GROUPS then (groups + [[t]], sequential)
    else (groups, sequential + [t])
  }

  ghost function PutAll(lists: AccessLists, groups: seq<Group>, sequential: seq<TxHash>,
                        queue: seq<TxHash>): (seq<Group>, seq<TxHash>)
  {
    if queue == [] then (groups, sequential)
    else
      var (g, s) := PutAll(lists, groups, sequential, queue[..|queue| - 1]);
      Put(lists, g, s, queue[|queue| - 1])
  }

  lemma PutKnown(lists: AccessLists, groups: seq<Group>, sequential: seq<TxHash>, t: TxHash)
    requires |groups| <= MAX_PARALLELIZABLE_GROUPS && t in lists && forall g | g in groups :: Known(lists, g)
    ensures var g' := Put(lists, groups, sequential, t).0;
            |g'| <= MAX_PARALLELIZABLE_GROUPS && forall g | g in g' :: Known(lists, g)
  {
    var i := FirstFreeIndex(lists, groups, t);
    if i < |groups| {
      assert groups[i] in groups;
      forall g | g in groups[i := groups[i] + [t]] ensures Known(lists, g) {
        assert g in groups || g == groups[i] + [t];
      }
    }
  }

  lemma {:induction false} PutAllKnown(lists: AccessLists, groups: seq<Group>, sequential: seq<TxHash>,
                                       queue: seq<TxHash>)
    requires |groups| <= MAX_PARALLELIZABLE_GROUPS && Known(lists, queue) && forall g | g in groups :: Known(lists, g)
    ensures var g' := PutAll(lists, groups, sequential, queue).0;
            |g'| <= MAX_PARALLELIZABLE_GROUPS && forall g | g in g' :: Known(lists, g)
  {
    if queue != [] {
      PutAllKnown(lists, groups, sequential, queue[..|queue| - 1]);
      var (g, s) := PutAll(lists, groups, sequential, queue[..|queue| - 1]);
      PutKnown(lists, g, s, queue[|queue| - 1]);
    }
  }

  /** First-fit keeps the batch invariant. */
  lemma PutBatch(lists: AccessLists, groups: seq<Group>, sequential: seq<TxHash>, arrivals: seq<TxHash>, t: TxHash)
    requires t in lists
    ensures var (g, s) := Put(lists, groups, sequential, t);
            Batch(lists, groups, sequential, arrivals) ==> Batch(lists, g, s, arrivals + [t])
  {
    if Batch(lists, groups, sequential, arrivals) {
      var i := FirstFreeIndex(lists, groups, t);
      PlaceAny(lists, groups, sequential, arrivals, t, i);
      var (g, s) := Put(lists, groups, sequential, t);
      assert Placed(groups, sequential, t, i, g, s);
    }
  }

  lemma {:induction false} PutAllBatch(lists: AccessLists, groups: seq<Group>, sequential: seq<TxHash>,
                                       arrivals: seq<TxHash>, queue: seq<TxHash>)
    requires Known(lists, queue)
    ensures var (g, s) := PutAll(lists, groups, sequential, queue);
            Batch(lists, groups, sequential, arrivals) ==> Batch(lists, g, s, arrivals + queue)
  {
    if queue == [] {
      assert arrivals + queue == arrivals;
    } else {
      var last := |queue| - 1;
      PutAllBatch(lists, groups, sequential, arrivals, queue[..last]);
      var (g, s) := PutAll(lists, groups, sequential, queue[..last]);
      PutBatch(lists, g, s, arrivals + queue[..last], queue[last]);
      assert arrivals + queue[..last] + [queue[last]] == arrivals + queue;
    }
  }

  /** First-fit neither makes nor breaks a group's independence. */
  lemma PutIndependent(lists: AccessLists, groups: seq<Group>, sequential: seq<TxHash>, t: TxHash)
    ensures AllIndependent(lists, Put(lists, groups, sequential, t).0) <==> AllIndependent(lists, groups)
  {
    var i, groups' := FirstFreeIndex(lists, groups, t), Put(lists, groups, sequential, t).0;
    forall j | 0 <= j < |groups| ensures Independent(lists, groups'[j]) <==> Independent(lists, groups[j]) {
      if j == i {
        ExtendIff(lists, groups[i], t);
      }
    }
    if AllIndependent(lists, groups') {
      forall j | 0 <= j < |groups| ensures Independent(lists, groups[j]) {
        assert Independent(lists, groups'[j]);
      }
    }
  }

  lemma ExtendIff(lists: AccessLists, group: Group, t: TxHash)
    requires !CollidesWithGroup(lists, t, group)
    ensures Independent(lists, group + [t]) <==> Independent(lists, group)
  {
    if Independent(lists, group) {
      ExtendIndependent(lists, group, t);
    }
    if Independent(lists, group + [t]) {
      forall i, j | 0 <= i < j < |group| ensures !Collides(lists, group[i], group[j]) {
        assert !Collides(lists, (group + [t])[i], (group + [t])[j]);
      }
    }
  }

  lemma {:induction false} PutAllIndependent(lists: AccessLists, groups: seq<Group>, sequential: seq<TxHash>,
                                             queue: seq<TxHash>)
    ensures AllIndependent(lists, PutAll(lists, groups, sequential, queue).0) <==> AllIndependent(lists, groups)
  {
    if queue != [] {
      PutAllIndependent(lists, groups, sequential, queue[..|queue| - 1]);
      var (g, s) := PutAll(lists, groups, sequential, queue[..|queue| - 1]);
      PutIndependent(lists, g, s, queue[|queue| - 1]);
    }
  }

  /** When a transaction is added with a list, groups that were independent are so afterwards, new members included, if
    and only if the list avoids the other members of every group that already held the transaction. Groups of the
    previous epoch, which get no new members, are the case of an empty queue. */
  lemma ListChanged(lists: AccessLists, groups: seq<Group>, sequential: seq<TxHash>, queue: seq<TxHash>, t: TxHash,
                    list: seq<Access>)
    requires AllIndependent(lists, groups)
    ensures AllIndependent(lists[t := list], PutAll(lists[t := list], groups, sequential, queue).0) <==>
              ListFits(lists, groups, t, list)
  {
    PutAllIndependent(lists[t := list], groups, sequential, queue);
    forall i | 0 <= i < |groups|
      ensures Independent(lists[t := list], groups[i]) <==> t !in groups[i] || Avoids(lists, groups[i], t, list)
    {
      ListReplaced(lists, groups[i], t, list);
    }
  }

  lemma PlaceAny(lists: AccessLists, groups: seq<Group>, sequential: seq<TxHash>, arrivals: seq<TxHash>, t: TxHash,
                 i: nat)
    requires Batch(lists, groups, sequential, arrivals) && t in lists && FirstFree(lists, groups, t, i)
    ensures forall groups', sequential' | Placed(groups, sequential, t, i, groups', sequential') ::
              Batch(lists, groups', sequential', arrivals + [t])
  {
    if i < |groups| {
      PlaceInGroup(lists, groups, sequential, arrivals, t, i);
    } else if |groups| < MAX_PARALLELIZABLE_GROUPS {
      PlaceInNewGroup(lists, groups, sequential, arrivals, t);
    } else {
      PlaceInSequence(lists, groups, sequential, arrivals, t);
    }
  }

  /** A batch stays valid when the list of a new transaction is recorded. */
  lemma MoreLists(lists: AccessLists, t: TxHash, list: seq<Access>, groups: seq<Group>, sequential: seq<TxHash>,
                  arrivals: seq<TxHash>)
    requires Batch(lists, groups, sequential, arrivals) && (t in lists ==> lists[t] == list)
    ensures Batch(lists[t := list], groups, sequential, arrivals)
  {
    var lists' := lists[t := list];
    assert forall u | u in lists :: Slots(lists', u) == Slots(lists, u);
    forall u, g | u in lists && Known(lists, g) && CollidesWithGroup(lists, u, g)
      ensures CollidesWithGroup(lists', u, g)
    {
      var v :| v in g && Collides(lists, u, v);
      assert Collides(lists', u, v);
    }
    forall g | g in groups ensures Independent(lists', g) && Known(lists', g) {
      assert forall i | 0 <= i < |g| :: g[i] in g;
    }
    forall i, g | 0 <= i < |groups| && g == groups[i] ensures g in groups {
    }
  }

  // ----- A transaction that comes again -----

  function OneKey(k: Key): seq<Access> { [Access(Some([k]))] }

  lemma OneSlot(k: Key)
    ensures SlotsOf(OneKey(k)) == {k}
  {
    var list := OneKey(k);
    var keys := KeysOf(list[0]);
    assert keys == [k] && keys[0] == k && k in keys;
    assert list[0] in list;
    assert k in SlotsOf(list);
    forall x | x in SlotsOf(list) ensures x == k {
      var a :| a in list && x in KeysOf(a);
    }
  }

  lemma PutOne(lists: AccessLists, groups: seq<Group>, sequential: seq<TxHash>, t: TxHash)
    ensures PutAll(lists, groups, sequential, [] + [t]) == Put(lists, groups, sequential, t)
  {
    assert ([] + [t])[..0] == [];
  }

  /** A transaction joins the only group if and only if it shares no key with it, else opens a second one. */
  lemma JoinsOrNot(lists: AccessLists, group: Group, t: TxHash)
    ensures Put(lists, [group], [], t) == if CollidesWithGroup(lists, t, group) then ([group, [t]], [])
            else ([group + [t]], [])
  {
    FirstFreeUnique(lists, [group], t, if CollidesWithGroup(lists, t, group) then 1 else 0);
    assert [group][0 := group + [t]] == [group + [t]];
    assert [group] + [[t]] == [group, [t]];
  }

  lemma OpensFirst(lists: AccessLists, t: TxHash)
    ensures Put(lists, [], [], t) == ([[t]], [])
  {
    assert [] + [[t]] == [[t]];
  }

  lemma FirstTwoShare(lists: AccessLists)
    requires 1 in lists && 2 in lists && lists[1] == OneKey(7) && lists[2] == OneKey(8)
    ensures Put(lists, [[1]], [], 2) == ([[1, 2]], [])
  {
    OneSlot(7);
    OneSlot(8);
    assert !Collides(lists, 2, 1);
    JoinsOrNot(lists, [1], 2);
    assert [1] + [2] == [1, 2];
  }

  lemma FirstComesAgain(lists: AccessLists)
    requires 1 in lists && 2 in lists && lists[1] == OneKey(8) && lists[2] == OneKey(8)
    ensures Put(lists, [[1, 2]], [], 1) == ([[1, 2], [1]], [])
    ensures !Independent(lists, [1, 2])
  {
    OneSlot(8);
    assert 8 in Slots(lists, 1) * Slots(lists, 2);
    var group := [1, 2];
    assert group[0] == 1 && group[1] == 2 && 2 in group && Collides(lists, 1, 2);
    JoinsOrNot(lists, group, 1);
  }

  /** Adds a transaction to a batcher with an empty queue and no sequential transactions, where it stays among the
    groups. */
  method AddOne(b: Batcher, t: TxHash, list: seq<Access>, ghost lists: AccessLists, ghost groups: seq<Group>,
                ghost groups': seq<Group>)
    requires b.Ready() && b.transactionQueue == [] && b.sequentialGroup == []
    requires b.accessLists == lists && b.parallelizableGroups == groups
    requires Put(lists[t := list], groups, [], t) == (groups', [])
    modifies b
    ensures b.Ready() && b.transactionQueue == [] && b.sequentialGroup == []
    ensures b.accessLists == lists[t := list] && b.parallelizableGroups == groups'
  {
    PutOne(lists[t := list], groups, [], t);
    b.AddTransaction(t, list);
  }

  /** A run that makes a group dependent: two transactions share no key and share a group; then the first comes again
    with a list that names the key of the second. */
  method ComesAgain() returns (b: Batcher)
    ensures b.Ready() && b.parallelizableGroups == [[1, 2], [1]]
    ensures !Independent(b.accessLists, b.parallelizableGroups[0])
  {
    b := new Batcher();
    OpensFirst(map[][1 := OneKey(7)], 1);
    AddOne(b, 1, OneKey(7), map[], [], [[1]]);
    FirstTwoShare(map[][1 := OneKey(7)][2 := OneKey(8)]);
    AddOne(b, 2, OneKey(8), map[][1 := OneKey(7)], [[1]], [[1, 2]]);
    ghost var lists := map[][1 := OneKey(7)][2 := OneKey(8)];
    FirstComesAgain(lists[1 := OneKey(8)]);
    AddOne(b, 1, OneKey(8), lists, [[1, 2]], [[1, 2], [1]]);
  }
}
