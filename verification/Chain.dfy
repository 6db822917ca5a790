/** Headers, the header store, the canonical number -> hash index and write batches.

  A header carries its own hash. Hashes are abstract numbers; that two different headers never
  share a hash is what makes the store a map from hash to header. */
module Chain {
  import opened Wrappers

  type Hash = nat
  type TxHash = nat
  type Root = nat

  const ZERO_HASH: Hash := 0
  const EMPTY_ROOT: Root := 0

  datatype Header = Header(hash: Hash, parent: Hash, number: nat, time: nat, root: Root, txs: seq<TxHash>)

  type HeaderStore = map<Hash, Header>
  type CanonIndex = map<nat, Hash>
  type TxIndex = map<TxHash, nat>

  /** A database lookup by (number, hash); the number of a genesis parent, -1, finds nothing. */
  function GetHeader(hs: HeaderStore, hash: Hash, number: int): (r: Option<Header>)
    ensures r.Some? ==> hash in hs && r.value == hs[hash] && r.value.number == number
  {
    if hash in hs && hs[hash].number == number then Some(hs[hash]) else None
  }

  /** The hash assigned to a number, or the zero hash. */
  function ReadCanonicalHash(canon: CanonIndex, n: nat): Hash {
    if n in canon then canon[n] else ZERO_HASH
  }

  ghost predicate Stored(hs: HeaderStore, h: Header) {
    h.hash in hs && hs[h.hash] == h
  }

  /** The entry under k has hash k, and its parent is stored one number below, unless it is genesis. */
  ghost predicate ClosedAt(hs: HeaderStore, genesis: Header, k: Hash)
    requires k in hs
  {
    && k != ZERO_HASH && hs[k].hash == k
    && (hs[k].number == 0 ==> hs[k] == genesis)
    && (hs[k].number > 0 ==> hs[k].parent in hs && hs[hs[k].parent].number == hs[k].number - 1)
  }

  /** The store is keyed by hash, has one header numbered 0, and contains every header's parent. */
  ghost predicate Closed(hs: HeaderStore, genesis: Header) {
    && Stored(hs, genesis) && genesis.number == 0 && genesis.parent == ZERO_HASH
    && (forall k {:trigger ClosedAt(hs, genesis, k)} | k in hs :: ClosedAt(hs, genesis, k))
  }

  /** The stored parent of a stored header other than genesis. */
  ghost function Parent(hs: HeaderStore, genesis: Header, h: Header): (p: Header)
    requires Closed(hs, genesis) && Stored(hs, h) && h.number > 0
    ensures Stored(hs, p) && p.hash == h.parent && p.number == h.number - 1 && p.hash != ZERO_HASH
    ensures GetHeader(hs, h.parent, h.number - 1) == Some(p)
  {
    assert ClosedAt(hs, genesis, h.hash) && ClosedAt(hs, genesis, h.parent);
    hs[h.parent]
  }

  /** Entry n is a stored header of that number whose parent is entry n - 1. */
  ghost predicate LinkedAt(hs: HeaderStore, canon: CanonIndex, n: nat) {
    && n in canon && canon[n] in hs && hs[canon[n]].number == n
    && (n > 0 ==> n - 1 in canon && hs[canon[n]].parent == canon[n - 1])
  }

  /** Entries 0..top form one parent-linked path of stored headers. */
  ghost predicate PathUpTo(hs: HeaderStore, canon: CanonIndex, top: nat) {
    && (forall n: nat | n <= top :: n in canon)
    && (forall n: nat | n <= top :: LinkedAt(hs, canon, n))
  }

  /** The index is exactly the parent-linked path from genesis to head, with nothing above. */
  ghost predicate CanonicalTo(hs: HeaderStore, canon: CanonIndex, head: Header) {
    && Stored(hs, head)
    && PathUpTo(hs, canon, head.number)
    && canon[head.number] == head.hash
    && (forall n | n in canon :: n <= head.number)
  }

  /** The entry under a number is a stored header of that number. */
  ghost predicate NumberedAt(hs: HeaderStore, canon: CanonIndex, n: nat) {
    n in canon && canon[n] in hs && hs[canon[n]].number == n
  }

  /** The index has an entry for 0, and every entry is a stored header of its number. */
  ghost predicate Numbered(hs: HeaderStore, canon: CanonIndex) {
    && 0 in canon
    && (forall n: nat {:trigger NumberedAt(hs, canon, n)} | n in canon :: NumberedAt(hs, canon, n))
  }

  /** The index has an entry for every number up to top and no other. */
  ghost predicate EndsAt(canon: CanonIndex, top: nat) {
    forall n: nat :: n in canon <==> n <= top
  }

  ghost predicate Gapless(canon: CanonIndex) {
    exists top: nat :: EndsAt(canon, top)
  }

  /** The index is linked up to head and has no gap. Entries above head, which nothing on head's path accounts for, may
    be left over. */
  ghost predicate LinkedUpTo(hs: HeaderStore, canon: CanonIndex, head: Header, top: nat) {
    && Stored(hs, head) && Numbered(hs, canon) && EndsAt(canon, top)
    && PathUpTo(hs, canon, head.number) && canon[head.number] == head.hash
  }

  ghost predicate LinkedTo(hs: HeaderStore, canon: CanonIndex, head: Header) {
    exists top: nat :: LinkedUpTo(hs, canon, head, top)
  }

  /** A number between two others has no entry. */
  ghost predicate GapBetween(canon: CanonIndex, last: nat, n: nat) {
    exists m: nat :: last < m < n && m !in canon
  }

  /** An entry survives when nothing is cut, or when the deletion of the entries above the cut stops at a gap below
    it. */
  ghost predicate Survives(canon: CanonIndex, cut: Option<nat>, n: nat) {
    cut.None? || GapBetween(canon, cut.value, n)
  }

  /** What an index becomes when the numbers above stop and up to last take the entries of a path, and the entries above
    a cut are deleted up to the first gap. */
  ghost function Rerouted(canon: CanonIndex, path: CanonIndex, stop: nat, last: nat, cut: Option<nat>): CanonIndex {
    map n | n in canon.Keys + path.Keys
            && (if stop < n <= last then n in path else n in canon && (n <= stop || Survives(canon, cut, n))) ::
      if stop < n <= last then path[n] else canon[n]
  }

  /** Nothing above last survives. */
  ghost predicate NothingAbove(canon: CanonIndex, last: nat, cut: Option<nat>) {
    forall n | n in canon && n > last :: !Survives(canon, cut, n)
  }

  /** In an index without a gap entries survive only without a cut. */
  lemma GaplessAbove(canon: CanonIndex, last: nat, cut: Option<nat>)
    requires Gapless(canon)
    ensures NothingAbove(canon, last, cut) <==> cut.Some? || last + 1 !in canon
  {
  }

  /** An index entry, or None. */
  function At(canon: CanonIndex, n: nat): Option<Hash> {
    if n in canon then Some(canon[n]) else None
  }

  /** The highest number up to n at which an index and a path agree. */
  ghost function LastAgreement(canon: CanonIndex, path: CanonIndex, n: nat): (stop: nat)
    ensures stop <= n
    ensures forall k: nat | stop < k <= n :: !Agree(canon, path, k)
    ensures Agree(canon, path, 0) ==> Agree(canon, path, stop)
  {
    if Agree(canon, path, n) || n == 0 then n else LastAgreement(canon, path, n - 1)
  }

  predicate Agree(canon: CanonIndex, path: CanonIndex, n: nat) {
    n in canon && n in path && canon[n] == path[n]
  }

  /** The index is linked up to a number, where it agrees with a path; so it does below. */
  ghost predicate Follows(hs: HeaderStore, canon: CanonIndex, path: CanonIndex, stop: nat) {
    PathUpTo(hs, canon, stop) && Agree(canon, path, stop)
  }

  /** Rerouting an index gives exactly the path if and only if the index followed the path where it is left as it is and
    nothing stays above. Either way its entries are stored headers of their numbers. */
  lemma {:induction false} ReroutedExact(hs: HeaderStore, canon: CanonIndex, path: CanonIndex, last: Header, stop: nat,
                                         cut: Option<nat>)
    requires Numbered(hs, canon) && CanonicalTo(hs, path, last)
    requires stop <= last.number
    ensures var r := Rerouted(canon, path, stop, last.number, cut);
            && Numbered(hs, r)
            && (r == path <==> Follows(hs, canon, path, stop) && NothingAbove(canon, last.number, cut))
            && (r == path <==> CanonicalTo(hs, r, last))
  {
    var r := Rerouted(canon, path, stop, last.number, cut);
    forall n: nat | n in r ensures NumberedAt(hs, r, n) {
      assert if stop < n <= last.number then LinkedAt(hs, path, n) else NumberedAt(hs, canon, n);
    }
    if r == path {
      forall n: nat | n <= stop ensures n in canon && LinkedAt(hs, canon, n) {
        assert LinkedAt(hs, path, n) && n in r && r[n] == canon[n];
      }
      assert Agree(canon, path, stop);
      forall n: nat | n in canon && n > last.number ensures !Survives(canon, cut, n) {
        assert n !in path && n !in r;
      }
      assert NothingAbove(canon, last.number, cut);
    }
    if Follows(hs, canon, path, stop) && NothingAbove(canon, last.number, cut) {
      PathsAgree(hs, canon, path, stop);
      forall n: nat ensures n in r <==> n in path {
        assert n <= last.number <==> n in path;
      }
      assert r == path;
    }
    if CanonicalTo(hs, r, last) {
      CanonicalUnique(hs, r, path, last);
    }
  }

  /** Rerouting makes a gap if and only if the index ended below the first entry it takes from the path. */
  lemma ReroutedGapless(hs: HeaderStore, canon: CanonIndex, path: CanonIndex, last: Header, stop: nat, cut: Option<nat>)
    requires Gapless(canon) && CanonicalTo(hs, path, last) && stop <= last.number
             && (stop in canon || stop < last.number)
    ensures Gapless(Rerouted(canon, path, stop, last.number, cut)) <==> stop in canon
  {
    var r := Rerouted(canon, path, stop, last.number, cut);
    var top: nat :| EndsAt(canon, top);
    if stop in canon {
      assert EndsAt(r, if cut.None? && top > last.number then top else last.number);
    } else {
      assert stop !in r && last.number in r;
      assert !Gapless(r);
    }
  }

  /** The index is canonical for its head when nothing is left over. */
  lemma CanonicalIsLinked(hs: HeaderStore, canon: CanonIndex, head: Header, top: nat)
    ensures CanonicalTo(hs, canon, head) ==> LinkedUpTo(hs, canon, head, head.number)
    ensures LinkedUpTo(hs, canon, head, top) ==> (CanonicalTo(hs, canon, head) <==> top == head.number)
  {
    if CanonicalTo(hs, canon, head) {
      forall n: nat | n in canon ensures NumberedAt(hs, canon, n) {
        assert LinkedAt(hs, canon, n);
      }
    }
    if LinkedUpTo(hs, canon, head, top) {
      assert top in canon;
    }
  }

  /** The index of the path genesis..h, by following parents. */
  ghost function PathTo(hs: HeaderStore, genesis: Header, h: Header): (path: CanonIndex)
    requires Closed(hs, genesis) && Stored(hs, h)
    ensures CanonicalTo(hs, path, h)
    decreases h.number
  {
    if h.number == 0 then map[0 := h.hash]
    else
      var below := PathTo(hs, genesis, Parent(hs, genesis, h));
      assert PathUpTo(hs, below, h.number - 1);
      var path := below[h.number := h.hash];
      assert forall n: nat | n < h.number :: LinkedAt(hs, below, n) ==> LinkedAt(hs, path, n);
      path
  }

  /** The number of the highest common block of the chains that end in two headers. */
  ghost function Fork(hs: HeaderStore, genesis: Header, a: Header, b: Header): nat
    requires Closed(hs, genesis) && Stored(hs, a) && Stored(hs, b)
  {
    LastAgreement(PathTo(hs, genesis, a), PathTo(hs, genesis, b), if a.number <= b.number then a.number else b.number)
  }

  /** Two linked paths that agree at one number agree everywhere below it. */
  lemma {:induction false} PathsAgree(hs: HeaderStore, c: CanonIndex, d: CanonIndex, top: nat)
    requires PathUpTo(hs, c, top) && PathUpTo(hs, d, top) && c[top] == d[top]
    ensures forall n: nat | n <= top :: c[n] == d[n]
  {
    assert LinkedAt(hs, c, top) && LinkedAt(hs, d, top);
    if top > 0 {
      PathsAgree(hs, c, d, top - 1);
    }
  }

  /** The head determines the whole canonical index. */
  lemma CanonicalUnique(hs: HeaderStore, c: CanonIndex, d: CanonIndex, head: Header)
    requires CanonicalTo(hs, c, head) && CanonicalTo(hs, d, head)
    ensures c == d
  {
    PathsAgree(hs, c, d, head.number);
    forall n ensures n in c <==> n in d {
      assert 0 <= n <= head.number ==> LinkedAt(hs, c, n) && LinkedAt(hs, d, n);
    }
  }

  /** A stored header on the path to head. */
  ghost predicate OnPathOf(hs: HeaderStore, genesis: Header, head: Header, h: Header) {
    && Closed(hs, genesis) && Stored(hs, head) && Stored(hs, h)
    && h.number <= head.number && PathTo(hs, genesis, head)[h.number] == h.hash
  }

  /** The path to a header on a path is the lower part of that path. */
  lemma PathPrefix(hs: HeaderStore, genesis: Header, head: Header, h: Header)
    requires OnPathOf(hs, genesis, head, h)
    ensures forall n: nat | n <= h.number ::
              n in PathTo(hs, genesis, h) && n in PathTo(hs, genesis, head)
              && PathTo(hs, genesis, h)[n] == PathTo(hs, genesis, head)[n]
  {
    PathsAgree(hs, PathTo(hs, genesis, h), PathTo(hs, genesis, head), h.number);
  }

  lemma OnLowerPath(hs: HeaderStore, genesis: Header, head: Header, mid: Header, h: Header)
    requires OnPathOf(hs, genesis, head, mid)
    ensures OnPathOf(hs, genesis, head, h) && h.number <= mid.number ==> OnPathOf(hs, genesis, mid, h)
    ensures OnPathOf(hs, genesis, mid, h) ==> OnPathOf(hs, genesis, head, h)
  {
    PathPrefix(hs, genesis, head, mid);
  }

  lemma ParentOnPath(hs: HeaderStore, genesis: Header, h: Header)
    requires Closed(hs, genesis) && Stored(hs, h)
    ensures OnPathOf(hs, genesis, h, h)
    ensures h.number > 0 ==> OnPathOf(hs, genesis, h, Parent(hs, genesis, h))
  {
    assert LinkedAt(hs, PathTo(hs, genesis, h), h.number);
  }

  /** A path does not care which other headers are stored. */
  lemma SamePath(hs: HeaderStore, hs': HeaderStore, genesis: Header, h: Header)
    requires Closed(hs, genesis) && Stored(hs, h) && Closed(hs', genesis) && Stored(hs', h)
    requires forall k | k in hs && hs[k].number <= h.number :: k in hs' && hs'[k] == hs[k]
    ensures PathTo(hs', genesis, h) == PathTo(hs, genesis, h)
  {
    PathInOtherStore(hs, hs', PathTo(hs, genesis, h), h.number);
    CanonicalUnique(hs', PathTo(hs, genesis, h), PathTo(hs', genesis, h), h);
  }

  /** A linked path does not care which other headers are stored. */
  lemma PathInOtherStore(hs: HeaderStore, hs': HeaderStore, canon: CanonIndex, top: nat)
    requires PathUpTo(hs, canon, top)
    requires forall k | k in hs && hs[k].number <= top :: k in hs' && hs'[k] == hs[k]
    ensures PathUpTo(hs', canon, top)
  {
    forall n: nat | n <= top ensures LinkedAt(hs', canon, n) {
      assert LinkedAt(hs, canon, n);
    }
  }

  /** Genesis is the first entry of every path. */
  lemma GenesisFirst(hs: HeaderStore, genesis: Header, canon: CanonIndex, top: nat)
    requires Closed(hs, genesis) && PathUpTo(hs, canon, top)
    ensures 0 in canon && canon[0] == genesis.hash
  {
    assert LinkedAt(hs, canon, 0);
    assert ClosedAt(hs, genesis, canon[0]);
  }

  /** The header found by following k parent links one at a time, or None when one is missing. */
  function Back(hs: HeaderStore, h: Header, k: nat): (r: Option<Header>)
    decreases k
  {
    if k == 0 then Some(h)
    else
      match GetHeader(hs, h.parent, h.number - 1)
      case None => None
      case Some(p) => Back(hs, p, k - 1)
  }

  /** Following one more link from the end is the same as following one more at the start. */
  lemma {:induction false} BackStep(hs: HeaderStore, h: Header, k: nat)
    ensures Back(hs, h, k + 1) ==
            match Back(hs, h, k)
            case None => None
            case Some(a) => GetHeader(hs, a.parent, a.number - 1)
    decreases k
  {
    if k == 0 {
      match GetHeader(hs, h.parent, h.number - 1)
      case None =>
      case Some(p) => assert Back(hs, h, 1) == Back(hs, p, 0);
    } else {
      match GetHeader(hs, h.parent, h.number - 1)
      case None =>
      case Some(p) =>
        BackStep(hs, p, k - 1);
        assert Back(hs, h, k + 1) == Back(hs, p, k);
        assert Back(hs, h, k) == Back(hs, p, k - 1);
    }
  }

  /** In a closed store exactly the first h.number links can be followed. */
  lemma {:induction false} BackDefined(hs: HeaderStore, genesis: Header, h: Header, k: nat)
    requires Closed(hs, genesis) && Stored(hs, h)
    ensures Back(hs, h, k).Some? <==> k <= h.number
    ensures k <= h.number ==> Stored(hs, Back(hs, h, k).value) && Back(hs, h, k).value.number == h.number - k
    decreases k
  {
    if k > 0 && h.number > 0 {
      BackDefined(hs, genesis, Parent(hs, genesis, h), k - 1);
    }
  }

  /** The k-th header back from a path's top is the path's entry k below the top. */
  lemma {:induction false} BackOnPath(hs: HeaderStore, canon: CanonIndex, h: Header, k: nat)
    requires Stored(hs, h) && PathUpTo(hs, canon, h.number) && canon[h.number] == h.hash
    requires forall x | x in hs :: hs[x].hash == x
    requires k <= h.number
    ensures Back(hs, h, k).Some? && Back(hs, h, k).value.hash == canon[h.number - k]
    decreases k
  {
    assert LinkedAt(hs, canon, h.number);
    if k > 0 {
      assert LinkedAt(hs, canon, h.number - 1);
      BackOnPath(hs, canon, hs[h.parent], k - 1);
    }
  }

  // ----- Write batches -----

  /** Pending writes: Some(v) puts v, None deletes; the last write to a key wins. */
  type Pending<K, V> = map<K, Option<V>>

  /** What a key will hold once the pending writes have been flushed. */
  function After<K, V>(m: map<K, V>, p: Pending<K, V>, k: K): Option<V> {
    if k in p then p[k] else if k in m then Some(m[k]) else None
  }

  /** A map after the pending writes have been flushed to it. */
  function Flush<K, V>(m: map<K, V>, p: Pending<K, V>): map<K, V> {
    map k | k in m.Keys + p.Keys && (k in p ==> p[k].Some?) :: if k in p then p[k].value else m[k]
  }

  /** A batch that gives every key the value it has in the target turns the map into the target. */
  lemma FlushIs<K, V>(m: map<K, V>, p: Pending<K, V>, target: map<K, V>)
    requires forall k :: After(m, p, k) == if k in target then Some(target[k]) else None
    ensures Flush(m, p) == target
  {
    var r := Flush(m, p);
    forall k ensures k in r <==> k in target {
      assert After(m, p, k).Some? <==> k in r;
    }
    forall k | k in r ensures r[k] == target[k] {
      assert After(m, p, k).Some?;
    }
  }

  lemma FlushPut<K, V>(m: map<K, V>, p: Pending<K, V>, k: K, v: V)
    ensures Flush(m, p[k := Some(v)]) == Flush(m, p)[k := v]
  {
  }

  lemma FlushNothing<K, V>(m: map<K, V>)
    ensures Flush(m, map[]) == m
  {
  }

  /** The writes collected by a database batch; none is visible until the batch is written. */
  datatype Batch = Batch(
    headers: Pending<Hash, Header>,
    canon: Pending<nat, Hash>,
    txs: Pending<TxHash, nat>,
    headHeader: Option<Hash>,
    headFast: Option<Hash>,
    headBlock: Option<Hash>)

  const EMPTY_BATCH: Batch := Batch(map[], map[], map[], None, None, None)

  function WriteCanonicalHash(b: Batch, hash: Hash, n: nat): Batch { b.(canon := b.canon[n := Some(hash)]) }

  function DeleteCanonicalHash(b: Batch, n: nat): Batch { b.(canon := b.canon[n := None]) }

  function WriteHeader(b: Batch, h: Header): Batch { b.(headers := b.headers[h.hash := Some(h)]) }

  /** One lookup entry per transaction of the block. */
  function WriteTxLookupEntries(b: Batch, block: Header): Batch {
    b.(txs := b.txs + (map t | t in block.txs :: Some(block.number)))
  }

  function DeleteTxLookupEntries(b: Batch, txs: set<TxHash>): Batch {
    b.(txs := b.txs + (map t | t in txs :: None))
  }

  function WriteHeadHeaderHash(b: Batch, hash: Hash): Batch { b.(headHeader := Some(hash)) }

  function WriteHeadFastBlockHash(b: Batch, hash: Hash): Batch { b.(headFast := Some(hash)) }

  function WriteHeadBlockHash(b: Batch, hash: Hash): Batch { b.(headBlock := Some(hash)) }

  function Marker(old_: Hash, p: Option<Hash>): Hash { if p.Some? then p.value else old_ }

  /** The key-value store shared by the header chain and the block chain. */
  class Database {
    var headers: HeaderStore
    var canon: CanonIndex
    var txs: TxIndex
    var headHeader: Hash
    var headFast: Hash
    var headBlock: Hash

    constructor (hs: HeaderStore, cs: CanonIndex, ts: TxIndex, hh: Hash, hf: Hash, hb: Hash)
      ensures headers == hs && canon == cs && txs == ts && headHeader == hh && headFast == hf && headBlock == hb
    {
      headers, canon, txs, headHeader, headFast, headBlock := hs, cs, ts, hh, hf, hb;
    }

    /** Flushes a batch. */
    method Write(b: Batch)
      modifies this
      ensures headers == Flush(old(headers), b.headers)
      ensures canon == Flush(old(canon), b.canon)
      ensures txs == Flush(old(txs), b.txs)
      ensures headHeader == Marker(old(headHeader), b.headHeader)
      ensures headFast == Marker(old(headFast), b.headFast)
      ensures headBlock == Marker(old(headBlock), b.headBlock)
    {
      headers, canon, txs := Flush(headers, b.headers), Flush(canon, b.canon), Flush(txs, b.txs);
      headHeader := Marker(headHeader, b.headHeader);
      headFast := Marker(headFast, b.headFast);
      headBlock := Marker(headBlock, b.headBlock);
    }
  }

  ghost function EntriesFrom(canon: CanonIndex, i: nat): set<nat> {
    set n | n in canon && n >= i
  }

  /** Adds a deletion for every index entry above a number until the first gap. */
  method DeleteCanonAbove(canon: CanonIndex, last: nat, b: Batch) returns (r: Batch)
    requires forall n: nat | n > last && n in canon :: canon[n] != ZERO_HASH
    requires forall n: nat | n > last :: n !in b.canon
    ensures r == b.(canon := r.canon)
    ensures forall n: nat | n in r.canon :: n in b.canon || n > last
    ensures forall n: nat :: After(canon, r.canon, n) ==
                             if n > last && !GapBetween(canon, last, n) then None else After(canon, b.canon, n)
  {
    r := b;
    var i := last + 1;
    while ReadCanonicalHash(canon, i) != ZERO_HASH
      invariant last < i && forall m: nat | last < m < i :: m in canon
      invariant r == b.(canon := r.canon)
      invariant forall n: nat | n >= i :: n !in r.canon
      invariant forall n: nat | n in r.canon :: n in b.canon || n > last
      invariant forall n: nat | n < i :: After(canon, r.canon, n) == if n > last then None else After(canon, b.canon, n)
      decreases EntriesFrom(canon, i)
    {
      var r' := DeleteCanonicalHash(r, i);
      assert forall n: nat | n < i :: After(canon, r'.canon, n) == After(canon, r.canon, n);
      r := r';
      assert i in EntriesFrom(canon, i) && i !in EntriesFrom(canon, i + 1);
      i := i + 1;
    }
  }
}
