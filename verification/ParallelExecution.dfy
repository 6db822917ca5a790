/** Why a group may run in parallel: when each transaction reads and writes only its listed storage keys, any order of
  an independent group, and running all members side by side on the starting state, give the same final state. */
module ParallelExecution {
  import opened Batchers

  type Value = int
  type Store = map<Key, Value>

  /** What a transaction does to the store. */
  type Effect = Store -> Store

  ghost predicate SameAt(s: Store, s': Store, k: Key) {
    (k in s <==> k in s') && (k in s ==> s[k] == s'[k])
  }

  ghost predicate SameOn(s: Store, s': Store, keys: set<Key>) {
    forall k {:trigger SameAt(s, s', k)} | k in keys :: SameAt(s, s', k)
  }

  /** The effect changes nothing outside the keys, and what it leaves in them depends only on them. */
  ghost predicate Confined(f: Effect, keys: set<Key>) {
    && (forall s, k {:trigger SameAt(f(s), s, k)} | k !in keys :: SameAt(f(s), s, k))
    && (forall s, s' {:trigger SameOn(s, s', keys)} | SameOn(s, s', keys) :: SameOn(f(s), f(s'), keys))
  }

  ghost predicate AllConfined(lists: AccessLists, effects: TxHash -> Effect, txs: seq<TxHash>) {
    forall t | t in txs :: Confined(effects(t), Slots(lists, t))
  }

  /** Sequential execution. */
  function Exec(effects: TxHash -> Effect, txs: seq<TxHash>, s: Store): Store {
    if txs == [] then s else Exec(effects, txs[1..], effects(txs[0])(s))
  }

  /** The result of running all members side by side from s: each key is as left by the member that lists it. */
  ghost predicate ParallelResult(lists: AccessLists, effects: TxHash -> Effect, txs: seq<TxHash>, s: Store, r: Store) {
    forall k {:trigger SameAt(r, s, k)} ::
      && (forall t | t in txs && k in Slots(lists, t) :: SameAt(r, effects(t)(s), k))
      && ((forall t | t in txs :: k !in Slots(lists, t)) ==> SameAt(r, s, k))
  }

  /** A key listed by a member of an independent sequence ends up as that member alone would leave it. */
  lemma {:induction false} ExecOwned(lists: AccessLists, effects: TxHash -> Effect, txs: seq<TxHash>, s: Store,
                                     t: TxHash, k: Key)
    requires Independent(lists, txs) && AllConfined(lists, effects, txs) && t in txs && k in Slots(lists, t)
    ensures SameAt(Exec(effects, txs, s), effects(t)(s), k)
  {
    var x, rest := txs[0], txs[1..];
    var s1 := effects(x)(s);
    TailIndependent(lists, txs);
    assert forall u | u in rest :: u in txs;
    if t in rest {
      ExecOwned(lists, effects, rest, s1, t, k);
      HeadApart(lists, txs, t);
      forall j | j in Slots(lists, t) ensures SameAt(s1, s, j) {
      }
      assert SameOn(s1, s, Slots(lists, t));
      assert SameAt(effects(t)(s1), effects(t)(s), k);
    } else {
      assert t == x;
      forall u | u in rest ensures k !in Slots(lists, u) {
        HeadApart(lists, txs, u);
      }
      ExecOther(lists, effects, rest, s1, k);
    }
  }

  /** A key that no member lists is not changed. */
  lemma {:induction false} ExecOther(lists: AccessLists, effects: TxHash -> Effect, txs: seq<TxHash>, s: Store, k: Key)
    requires AllConfined(lists, effects, txs) && forall t | t in txs :: k !in Slots(lists, t)
    ensures SameAt(Exec(effects, txs, s), s, k)
  {
    if txs != [] {
      assert txs[0] in txs && forall u | u in txs[1..] :: u in txs;
      ExecOther(lists, effects, txs[1..], effects(txs[0])(s), k);
      assert SameAt(effects(txs[0])(s), s, k);
    }
  }

  lemma TailIndependent(lists: AccessLists, txs: seq<TxHash>)
    requires Independent(lists, txs) && txs != []
    ensures Independent(lists, txs[1..])
  {
  }

  lemma HeadApart(lists: AccessLists, txs: seq<TxHash>, u: TxHash)
    requires Independent(lists, txs) && txs != [] && u in txs[1..]
    ensures Slots(lists, txs[0]) !! Slots(lists, u)
  {
    var j :| 0 <= j < |txs[1..]| && txs[1..][j] == u;
    assert txs[j + 1] == u && !Collides(lists, txs[0], txs[j + 1]);
    assert forall k | k in Slots(lists, txs[0]) && k in Slots(lists, u) :: k in Slots(lists, txs[0]) * Slots(lists, u);
  }

  /** Executing an independent group in its order is the same as running all its members side by side. */
  lemma ExecIsParallel(lists: AccessLists, effects: TxHash -> Effect, txs: seq<TxHash>, s: Store)
    requires Independent(lists, txs) && AllConfined(lists, effects, txs)
    ensures ParallelResult(lists, effects, txs, s, Exec(effects, txs, s))
  {
    var r := Exec(effects, txs, s);
    forall k
      ensures forall t | t in txs && k in Slots(lists, t) :: SameAt(r, effects(t)(s), k)
      ensures (forall t | t in txs :: k !in Slots(lists, t)) ==> SameAt(r, s, k)
    {
      forall t | t in txs && k in Slots(lists, t) ensures SameAt(r, effects(t)(s), k) {
        ExecOwned(lists, effects, txs, s, t, k);
      }
      if forall t | t in txs :: k !in Slots(lists, t) {
        ExecOther(lists, effects, txs, s, k);
      }
    }
  }

  /** Side-by-side execution has one result. */
  lemma ParallelUnique(lists: AccessLists, effects: TxHash -> Effect, txs: seq<TxHash>, s: Store, r: Store, r': Store)
    requires ParallelResult(lists, effects, txs, s, r) && ParallelResult(lists, effects, txs, s, r')
    ensures r == r'
  {
    forall k ensures SameAt(r, r', k) {
      assert SameAt(r, s, k) || !SameAt(r, s, k);
      assert SameAt(r', s, k) || !SameAt(r', s, k);
      if t :| t in txs && k in Slots(lists, t) {
        assert SameAt(r, effects(t)(s), k) && SameAt(r', effects(t)(s), k);
      }
    }
    assert forall k :: k in r <==> k in r' by {
      forall k ensures k in r <==> k in r' {
        assert SameAt(r, r', k);
      }
    }
    assert forall k | k in r :: SameAt(r, r', k);
  }

  // ----- Orders of a group -----

  /** A value that occurs twice in a sequence occurs at two positions. */
  lemma {:induction false} TwoPlaces(xs: seq<TxHash>, x: TxHash) returns (i: nat, j: nat)
    requires multiset(xs)[x] >= 2
    ensures i < j < |xs| && xs[i] == x == xs[j]
  {
    var init, last := xs[..|xs| - 1], xs[|xs| - 1];
    assert xs == init + [last];
    if last == x {
      assert x in init by {
        assert multiset(init)[x] >= 1;
      }
      i :| 0 <= i < |init| && init[i] == x;
      j := |xs| - 1;
    } else {
      i, j := TwoPlaces(init, x);
    }
  }

  /** Two positions with one value make it occur twice. */
  lemma CountTwo(xs: seq<TxHash>, i: nat, j: nat)
    requires i < j < |xs| && xs[i] == xs[j]
    ensures multiset(xs)[xs[i]] >= 2
  {
    assert xs == xs[..j] + [xs[j]] + xs[j + 1..];
    assert xs[..j][i] == xs[i];
    assert xs[i] in xs[..j];
  }

  /** Independence does not depend on the order of a group. */
  lemma IndependentAnyOrder(lists: AccessLists, xs: seq<TxHash>, ys: seq<TxHash>)
    requires Independent(lists, xs) && multiset(xs) == multiset(ys)
    ensures Independent(lists, ys)
  {
    forall i, j | 0 <= i < j < |ys| ensures !Collides(lists, ys[i], ys[j]) {
      if ys[i] == ys[j] {
        CountTwo(ys, i, j);
        var p, q := TwoPlaces(xs, ys[i]);
      } else {
        assert ys[i] in multiset(ys) && ys[j] in multiset(ys);
        assert ys[i] in multiset(xs) && ys[j] in multiset(xs);
        var p :| 0 <= p < |xs| && xs[p] == ys[i];
        var q :| 0 <= q < |xs| && xs[q] == ys[j];
        if q < p {
          assert !Collides(lists, xs[q], xs[p]);
        }
      }
    }
  }

  /** Every order of a group the batcher formed gives the same final state from any starting state. */
  lemma AnyOrderSameState(lists: AccessLists, effects: TxHash -> Effect, group: Group, order: seq<TxHash>, s: Store)
    requires Independent(lists, group) && AllConfined(lists, effects, group) && multiset(order) == multiset(group)
    ensures Exec(effects, order, s) == Exec(effects, group, s)
  {
    forall t ensures t in order <==> t in group {
      assert t in order <==> t in multiset(order);
      assert t in group <==> t in multiset(group);
    }
    IndependentAnyOrder(lists, group, order);
    ExecIsParallel(lists, effects, order, s);
    ExecIsParallel(lists, effects, group, s);
    SameMembers(lists, effects, order, group, s, Exec(effects, order, s));
    ParallelUnique(lists, effects, group, s, Exec(effects, order, s), Exec(effects, group, s));
  }

  lemma SameMembers(lists: AccessLists, effects: TxHash -> Effect, xs: seq<TxHash>, ys: seq<TxHash>, s: Store, r: Store)
    requires ParallelResult(lists, effects, xs, s, r) && forall t :: t in xs <==> t in ys
    ensures ParallelResult(lists, effects, ys, s, r)
  {
    forall k
      ensures forall t | t in ys && k in Slots(lists, t) :: SameAt(r, effects(t)(s), k)
      ensures (forall t | t in ys :: k !in Slots(lists, t)) ==> SameAt(r, s, k)
    {
      assert SameAt(r, s, k) || !SameAt(r, s, k);
    }
  }
}
