/** The block chain: switching the head with a reorg while the transaction lookup follows. */
module BlockChains {
  import opened Wrappers
  import opened Chain
  import opened HeaderChains
  import opened Rewind

  datatype ReorgError = InvalidOldChain | InvalidNewChain

  /** Transaction t is in the path's block number n. */
  ghost predicate OnPath(hs: HeaderStore, path: CanonIndex, t: TxHash, n: nat) {
    n in path && path[n] in hs && t in hs[path[n]].txs
  }

  /** The lookup has an entry for every transaction of the path's blocks 0..top, with its block number. */
  ghost predicate TxComplete(hs: HeaderStore, path: CanonIndex, txs: TxIndex, top: nat) {
    forall t, n: nat {:trigger OnPath(hs, path, t, n)} | n <= top && OnPath(hs, path, t, n) :: t in txs && txs[t] == n
  }

  /** The lookup maps exactly the transactions of the path's blocks 0..top to their block numbers. */
  ghost predicate TxIndexed(hs: HeaderStore, path: CanonIndex, txs: TxIndex, top: nat) {
    && TxComplete(hs, path, txs, top)
    && (forall t {:trigger txs[t]} | t in txs :: txs[t] <= top && OnPath(hs, path, t, txs[t]))
  }

  /** No transaction is in two blocks of the path. */
  ghost predicate NoRepeat(hs: HeaderStore, path: CanonIndex) {
    forall t, n: nat, m: nat {:trigger OnPath(hs, path, t, n), OnPath(hs, path, t, m)} |
      OnPath(hs, path, t, n) && OnPath(hs, path, t, m) :: n == m
  }

  /** No transaction occurs twice on the chain that ends in h. */
  ghost predicate UniqueTxs(hs: HeaderStore, genesis: Header, h: Header) {
    Closed(hs, genesis) && Stored(hs, h) ==> NoRepeat(hs, PathTo(hs, genesis, h))
  }

  /** The block is stored and the index is linked up to its parent. */
  ghost predicate LinkedToParent(hs: HeaderStore, canon: CanonIndex, block: Header) {
    && Stored(hs, block) && block.number > 0
    && PathUpTo(hs, canon, block.number - 1) && canon[block.number - 1] == block.parent
  }

  /** The blocks of a chain segment as reorg collects it: entry i is the path's block number top - i. */
  ghost predicate Segment(hs: HeaderStore, path: CanonIndex, top: nat, blocks: seq<Header>) {
    && |blocks| <= top + 1
    && (forall i | 0 <= i < |blocks| :: Stored(hs, blocks[i]) && blocks[i].number == top - i && top - i in path
                                        && path[top - i] == blocks[i].hash)
  }

  /** The transactions of a path's blocks with lo < number <= hi. */
  ghost predicate InRange(hs: HeaderStore, path: CanonIndex, t: TxHash, lo: nat, hi: nat) {
    exists n: nat :: lo < n <= hi && OnPath(hs, path, t, n)
  }

  /** The lookup while new blocks above common are being written over the old path's lookup. */
  ghost predicate TxMixed(hs: HeaderStore, path: CanonIndex, oldTxs: TxIndex, txs: TxIndex, common: nat, cur: nat) {
    && (forall t, n: nat {:trigger OnPath(hs, path, t, n)} | common < n <= cur && OnPath(hs, path, t, n) ::
        t in txs && txs[t] == n)
    && (forall t | !InRange(hs, path, t, common, cur) ::
        (t in txs <==> t in oldTxs) && (t in txs ==> txs[t] == oldTxs[t]))
  }

  /** Nothing has been rerouted yet. */
  lemma RerouteNothing(canon: CanonIndex, path: CanonIndex, stop: nat)
    ensures Rerouted(canon, path, stop, stop, None) == canon
  {
  }

  /** One more entry of the path. */
  lemma RerouteNext(canon: CanonIndex, path: CanonIndex, stop: nat, cur: nat)
    requires stop <= cur && cur + 1 in path
    ensures Rerouted(canon, path, stop, cur, None)[cur + 1 := path[cur + 1]] ==
              Rerouted(canon, path, stop, cur + 1, None)
  {
  }

  /** Deleting the entries above the end of the rerouted part cuts the index there. */
  lemma CutDeletes(canon: CanonIndex, path: CanonIndex, stop: nat, last: nat)
    requires stop <= last
    ensures var r := Rerouted(canon, path, stop, last, None);
            forall n: nat :: At(Rerouted(canon, path, stop, last, Some(last)), n) ==
                             if n > last && !GapBetween(r, last, n) then None else At(r, n)
  {
    var r := Rerouted(canon, path, stop, last, None);
    forall n: nat | n > last ensures GapBetween(r, last, n) <==> GapBetween(canon, last, n) {
      assert forall m: nat | last < m < n :: m in r <==> m in canon;
    }
  }

  /** The rerouted index follows the path wherever the old one did below. */
  lemma ReroutedLinked(hs: HeaderStore, canon: CanonIndex, path: CanonIndex, stop: nat, cur: nat)
    requires stop <= cur && PathUpTo(hs, path, cur) && Follows(hs, canon, path, stop)
    ensures PathUpTo(hs, Rerouted(canon, path, stop, cur, None), cur)
  {
    PathsAgree(hs, canon, path, stop);
    SamePathLinked(hs, path, Rerouted(canon, path, stop, cur, None), cur);
  }

  lemma ReroutedCut(hs: HeaderStore, canon: CanonIndex, path: CanonIndex, head: Header, stop: nat, tip: nat)
    requires CanonicalTo(hs, path, head) && stop <= tip <= head.number && Follows(hs, canon, path, stop)
    requires NothingAbove(canon, tip, Some(tip))
    ensures Rerouted(canon, path, stop, tip, Some(tip)) == IndexUpTo(path, tip)
  {
    PathsAgree(hs, canon, path, stop);
  }

  /** HashDifference: the hashes of a that are not in b. */
  function HashDifference(a: seq<TxHash>, b: seq<TxHash>): set<TxHash> {
    set t | t in a && t !in b
  }

  /** Removing the old segment's transactions that were not reborn leaves exactly the new path's lookup. */
  lemma ReorgTxs(hs: HeaderStore, oldPath: CanonIndex, newPath: CanonIndex, oldTxs: TxIndex, mixed: TxIndex,
                 txs: TxIndex, common: nat, oldTop: nat, tip: nat, newTop: nat)
    requires TxComplete(hs, oldPath, oldTxs, oldTop) && NoRepeat(hs, newPath)
    requires PathUpTo(hs, oldPath, oldTop) && PathUpTo(hs, newPath, newTop) && common <= tip <= newTop
             && common <= oldTop
    requires oldPath[common] == newPath[common]
    requires TxMixed(hs, newPath, oldTxs, mixed, common, tip)
    requires forall t :: t in txs <==>
               t in mixed && !(InRange(hs, oldPath, t, common, oldTop) && !InRange(hs, newPath, t, common, tip))
    requires forall t | t in txs :: txs[t] == mixed[t]
    ensures TxComplete(hs, newPath, txs, tip)
    ensures TxIndexed(hs, oldPath, oldTxs, oldTop) ==> TxIndexed(hs, newPath, txs, tip)
  {
    PathsAgree(hs, oldPath, newPath, common);
    forall t, n: nat | n <= tip && OnPath(hs, newPath, t, n) ensures t in txs && txs[t] == n {
      if n <= common {
        assert OnPath(hs, oldPath, t, n);
        assert !InRange(hs, newPath, t, common, tip);
        assert !InRange(hs, oldPath, t, common, oldTop);
      } else {
        assert InRange(hs, newPath, t, common, tip);
      }
    }
    forall t | t in txs && TxIndexed(hs, oldPath, oldTxs, oldTop)
      ensures txs[t] <= tip && OnPath(hs, newPath, t, txs[t])
    {
      if InRange(hs, newPath, t, common, tip) {
        var n: nat :| common < n <= tip && OnPath(hs, newPath, t, n);
        assert mixed[t] == n;
      } else {
        assert t in oldTxs && OnPath(hs, oldPath, t, oldTxs[t]);
        assert oldTxs[t] <= common;
        assert OnPath(hs, newPath, t, oldTxs[t]);
      }
    }
  }

  /** The lookup after a block's entries have been written. */
  ghost function WithBlockTxs(txs: TxIndex, block: Header): TxIndex {
    txs + (map t | t in block.txs :: block.number)
  }

  /** The range grows by the transactions of the next block. */
  lemma RangeNext(hs: HeaderStore, path: CanonIndex, common: nat, block: Header)
    requires common < block.number
    requires Stored(hs, block) && block.number in path && path[block.number] == block.hash
    ensures forall t :: InRange(hs, path, t, common, block.number) <==>
                        InRange(hs, path, t, common, block.number - 1) || t in block.txs
  {
    forall t ensures InRange(hs, path, t, common, block.number) <==>
                     InRange(hs, path, t, common, block.number - 1) || t in block.txs {
      assert t in block.txs <==> OnPath(hs, path, t, block.number);
    }
  }

  /** Adding the next block of the path to the lookup. */
  lemma MixNext(hs: HeaderStore, path: CanonIndex, oldTxs: TxIndex, txs: TxIndex, common: nat, block: Header)
    requires common < block.number && TxMixed(hs, path, oldTxs, txs, common, block.number - 1) && NoRepeat(hs, path)
    requires Stored(hs, block) && block.number in path && path[block.number] == block.hash
    ensures TxMixed(hs, path, oldTxs, WithBlockTxs(txs, block), common, block.number)
  {
    var cur, txs' := block.number - 1, WithBlockTxs(txs, block);
    assert forall t :: t in block.txs <==> OnPath(hs, path, t, cur + 1);
    RangeNext(hs, path, common, block);
    forall t, n: nat | common < n <= cur + 1 && OnPath(hs, path, t, n) ensures t in txs' && txs'[t] == n {
      assert t in block.txs ==> OnPath(hs, path, t, cur + 1);
    }
  }

  /** The reborn transactions are those of the new blocks up to cur, and their entries are on top of the old lookup, as
    long as no transaction repeats on the path. */
  ghost predicate Reborn(hs: HeaderStore, path: CanonIndex, oldTxs: TxIndex, txs: TxIndex, rebirthTxs: seq<TxHash>,
                         common: nat, cur: nat)
  {
    && (NoRepeat(hs, path) ==> TxMixed(hs, path, oldTxs, txs, common, cur))
    && (forall t :: t in rebirthTxs <==> InRange(hs, path, t, common, cur))
  }

  lemma RebornNext(hs: HeaderStore, path: CanonIndex, oldTxs: TxIndex, txs: TxIndex, rebirthTxs: seq<TxHash>,
                   common: nat, block: Header)
    requires common < block.number && Reborn(hs, path, oldTxs, txs, rebirthTxs, common, block.number - 1)
    requires Stored(hs, block) && block.number in path && path[block.number] == block.hash
    ensures Reborn(hs, path, oldTxs, WithBlockTxs(txs, block), rebirthTxs + block.txs, common, block.number)
  {
    RangeNext(hs, path, common, block);
    if NoRepeat(hs, path) {
      MixNext(hs, path, oldTxs, txs, common, block);
    }
  }

  /** Extending an exact lookup by the next block of the path keeps it exact; so does repeating the last block. */
  lemma IndexNext(hs: HeaderStore, path: CanonIndex, txs: TxIndex, top: nat, block: Header)
    requires TxComplete(hs, path, txs, top) && NoRepeat(hs, path)
    requires Stored(hs, block) && block.number in path && path[block.number] == block.hash
    requires block.number == top || block.number == top + 1
    ensures TxComplete(hs, path, WithBlockTxs(txs, block), block.number)
    ensures TxIndexed(hs, path, txs, top) ==> TxIndexed(hs, path, WithBlockTxs(txs, block), block.number)
  {
    var txs' := WithBlockTxs(txs, block);
    assert forall t :: t in block.txs <==> OnPath(hs, path, t, block.number);
    forall t, n: nat | n <= block.number && OnPath(hs, path, t, n) ensures t in txs' && txs'[t] == n {
      assert t in block.txs ==> OnPath(hs, path, t, block.number);
    }
    forall t | t in txs' && TxIndexed(hs, path, txs, top)
      ensures txs'[t] <= block.number && OnPath(hs, path, t, txs'[t])
    {
      assert t !in block.txs ==> t in txs && txs'[t] == txs[t];
    }
  }

  /** The lookup only depends on the part of the path it covers. */
  lemma IndexSamePath(hs: HeaderStore, path: CanonIndex, path': CanonIndex, txs: TxIndex, top: nat)
    requires forall n: nat | n <= top :: n in path && n in path' && path[n] == path'[n]
    ensures TxComplete(hs, path, txs, top) ==> TxComplete(hs, path', txs, top)
    ensures TxIndexed(hs, path, txs, top) ==> TxIndexed(hs, path', txs, top)
  {
    forall t, n: nat | n <= top ensures OnPath(hs, path', t, n) <==> OnPath(hs, path, t, n) {
    }
  }

  lemma SamePathLinked(hs: HeaderStore, path: CanonIndex, path': CanonIndex, top: nat)
    requires PathUpTo(hs, path, top)
    requires forall n: nat | n <= top :: n in path && n in path' && path[n] == path'[n]
    ensures PathUpTo(hs, path', top)
  {
    forall n: nat | n <= top ensures LinkedAt(hs, path', n) {
      assert LinkedAt(hs, path, n);
    }
  }

  /** The concatenated transactions of some blocks. */
  method CollectTxs(blocks: seq<Header>) returns (txs: seq<TxHash>)
    ensures forall t :: t in txs <==> exists i :: 0 <= i < |blocks| && t in blocks[i].txs
  {
    txs := [];
    for i := 0 to |blocks|
      invariant forall t :: t in txs <==> exists j :: 0 <= j < i && t in blocks[j].txs
    {
      txs := txs + blocks[i].txs;
    }
  }

  /** A collected segment holds exactly the transactions of its numbers. */
  lemma SegmentTxs(hs: HeaderStore, path: CanonIndex, top: nat, blocks: seq<Header>, t: TxHash)
    requires Segment(hs, path, top, blocks) && |blocks| <= top
    ensures (exists i :: 0 <= i < |blocks| && t in blocks[i].txs) <==> InRange(hs, path, t, top - |blocks|, top)
  {
    if i :| 0 <= i < |blocks| && t in blocks[i].txs {
      assert OnPath(hs, path, t, top - i);
    }
    if InRange(hs, path, t, top - |blocks|, top) {
      var n: nat :| top - |blocks| < n <= top && OnPath(hs, path, t, n);
      assert t in blocks[top - n].txs;
    }
  }

  /** The head determines both the canonical index and the lookup, so switching away and back restores them. */
  lemma HeadDetermines(hs: HeaderStore, head: Header, c: CanonIndex, d: CanonIndex, txs: TxIndex, txs': TxIndex)
    requires CanonicalTo(hs, c, head) && TxIndexed(hs, c, txs, head.number)
    requires CanonicalTo(hs, d, head) && TxIndexed(hs, d, txs', head.number)
    ensures c == d && txs == txs'
  {
    CanonicalUnique(hs, c, d, head);
    assert forall t | t in txs :: OnPath(hs, c, t, txs[t]);
    assert forall t | t in txs' :: OnPath(hs, c, t, txs'[t]);
  }

  /** Writing a head block without a reorg leaves exactly its path if and only if the index was linked up to its
    parent and held nothing above the block: the assumption under which the block is indeed a true head. */
  lemma TrueHead(hs: HeaderStore, canon: CanonIndex, block: Header)
    requires Stored(hs, block) && block.number > 0
    ensures CanonicalTo(hs, canon[block.number := block.hash], block) <==>
            LinkedToParent(hs, canon, block) && forall n | n in canon :: n <= block.number
  {
    var canon' := canon[block.number := block.hash];
    if CanonicalTo(hs, canon', block) {
      WrittenLinked(hs, canon, block);
    }
    if LinkedToParent(hs, canon, block) {
      forall n: nat | n <= block.number ensures LinkedAt(hs, canon', n) {
        assert n < block.number ==> LinkedAt(hs, canon, n);
      }
    }
  }

  lemma WrittenLinked(hs: HeaderStore, canon: CanonIndex, block: Header)
    requires Stored(hs, block) && block.number > 0 && CanonicalTo(hs, canon[block.number := block.hash], block)
    ensures LinkedToParent(hs, canon, block) && forall n | n in canon :: n <= block.number
  {
    var canon' := canon[block.number := block.hash];
    assert LinkedAt(hs, canon', block.number);
    forall n: nat | n < block.number ensures n in canon && LinkedAt(hs, canon, n) {
      assert LinkedAt(hs, canon', n);
    }
    assert forall n | n in canon :: n in canon';
  }

  /** The highest number below which the index is left as it is when head replaces block as the head: that of their
    highest common block, which is not written again, except for the new head itself. */
  ghost function Base(hs: HeaderStore, genesis: Header, block: Header, head: Header): (base: nat)
    requires Closed(hs, genesis) && Stored(hs, block) && Stored(hs, head)
  {
    var fork := Fork(hs, genesis, block, head);
    if fork == head.number > 0 then fork - 1 else fork
  }

  /** Where a reorg ends: at the new head when it was on the old chain, else at its parent. */
  ghost function Tip(fork: nat, head: Header): nat {
    if fork < head.number then head.number - 1 else head.number
  }

  /** Where the index is cut when head replaces block as the head: where the reorg ends, if one is needed. */
  ghost function CutFor(hs: HeaderStore, genesis: Header, block: Header, head: Header): Option<nat>
    requires Closed(hs, genesis) && Stored(hs, block) && Stored(hs, head)
  {
    if head.parent == block.hash then None else Some(Tip(Fork(hs, genesis, block, head), head))
  }

  /** The index after head has replaced block as the head. */
  ghost function Switched(hs: HeaderStore, genesis: Header, canon: CanonIndex, block: Header, head: Header): CanonIndex
    requires Closed(hs, genesis) && Stored(hs, block) && Stored(hs, head)
  {
    Rerouted(canon, PathTo(hs, genesis, head), Base(hs, genesis, block, head), head.number,
             CutFor(hs, genesis, block, head))
  }

  /** The highest common block is where the paths agree and above which they do not. */
  lemma ForkIs(hs: HeaderStore, genesis: Header, a: Header, b: Header, common: nat)
    requires Closed(hs, genesis) && Stored(hs, a) && Stored(hs, b) && common <= a.number && common <= b.number
    requires Agree(PathTo(hs, genesis, a), PathTo(hs, genesis, b), common)
    requires forall n: nat | common < n <= a.number && n <= b.number ::
               !Agree(PathTo(hs, genesis, a), PathTo(hs, genesis, b), n)
    ensures Fork(hs, genesis, a, b) == common
  {
    ForkAgrees(hs, genesis, a, b);
  }

  lemma ForkAgrees(hs: HeaderStore, genesis: Header, a: Header, b: Header)
    requires Closed(hs, genesis) && Stored(hs, a) && Stored(hs, b)
    ensures Fork(hs, genesis, a, b) <= a.number && Fork(hs, genesis, a, b) <= b.number
    ensures Agree(PathTo(hs, genesis, a), PathTo(hs, genesis, b), Fork(hs, genesis, a, b))
  {
    GenesisFirst(hs, genesis, PathTo(hs, genesis, a), a.number);
    GenesisFirst(hs, genesis, PathTo(hs, genesis, b), b.number);
    assert Agree(PathTo(hs, genesis, a), PathTo(hs, genesis, b), 0);
  }

  /** A block and its child part at the block. */
  lemma ForkOfChild(hs: HeaderStore, genesis: Header, parent: Header, child: Header)
    requires Closed(hs, genesis) && Stored(hs, parent) && Stored(hs, child) && child.parent == parent.hash
    ensures child.number == parent.number + 1
    ensures Fork(hs, genesis, parent, child) == Base(hs, genesis, parent, child) == parent.number
    ensures OnPathOf(hs, genesis, child, parent)
  {
    assert ClosedAt(hs, genesis, child.hash) && ClosedAt(hs, genesis, parent.hash);
    assert LinkedAt(hs, PathTo(hs, genesis, child), child.number);
    assert Agree(PathTo(hs, genesis, parent), PathTo(hs, genesis, child), parent.number);
  }

  /** Writing the head on the index a reorg leaves, or on the old one when it extends the head block, switches the
    index. */
  lemma HeadWritten(hs: HeaderStore, genesis: Header, canon: CanonIndex, block: Header, head: Header)
    requires Closed(hs, genesis) && Stored(hs, block) && Stored(hs, head) && Agree(canon, PathTo(hs, genesis, head), 0)
    ensures head.parent == block.hash ==>
              Switched(hs, genesis, canon, block, head) == canon[head.number := head.hash]
    ensures head.parent != block.hash ==>
              var fork := Fork(hs, genesis, block, head);
              var tip := Tip(fork, head);
              Switched(hs, genesis, canon, block, head) ==
              Rerouted(canon, PathTo(hs, genesis, head), fork, tip, Some(tip))[head.number := head.hash]
  {
    ForkAgrees(hs, genesis, block, head);
    if head.parent == block.hash {
      ForkOfChild(hs, genesis, block, head);
    }
  }

  /** When the index was linked up to the head header and the head block lies on its path, the index follows the path to
    any new head as far as it is left as it is. */
  lemma FollowsFork(hs: HeaderStore, genesis: Header, canon: CanonIndex, header: Header, block: Header, head: Header)
    requires OnPathOf(hs, genesis, header, block) && Stored(hs, head)
    requires PathUpTo(hs, canon, header.number) && canon[header.number] == header.hash
    ensures Follows(hs, canon, PathTo(hs, genesis, head), Fork(hs, genesis, block, head))
  {
    ForkAgrees(hs, genesis, block, head);
    PathsAgree(hs, canon, PathTo(hs, genesis, header), header.number);
    PathPrefix(hs, genesis, header, block);
  }

  lemma FollowsBase(hs: HeaderStore, genesis: Header, canon: CanonIndex, header: Header, block: Header, head: Header)
    requires OnPathOf(hs, genesis, header, block) && Stored(hs, head)
    requires PathUpTo(hs, canon, header.number) && canon[header.number] == header.hash
    ensures Follows(hs, canon, PathTo(hs, genesis, head), Base(hs, genesis, block, head))
  {
    ForkAgrees(hs, genesis, block, head);
    FollowsFork(hs, genesis, canon, header, block, head);
    PathsAgree(hs, canon, PathTo(hs, genesis, head), Fork(hs, genesis, block, head));
  }

  class BlockChain {
    const db: Database
    const hc: HeaderChain
    const genesisBlock: Header
    const pathScheme: bool
    const pivot: Option<nat>
    var currentBlock: Header
    var currentSnapBlock: Header
    var states: set<Root>       // roots whose state is available
    var recoverable: set<Root>  // roots whose state the path scheme can roll back to

    /** The parts of the chain refer to the same database and genesis. */
    ghost predicate Wired()
      reads this
    {
      hc.db == db && hc.genesisHeader == genesisBlock
    }

    /** A marker is a stored block of the path to the head header. */
    ghost predicate OnChain(h: Header)
      reads this, hc, db
    {
      OnPathOf(db.headers, genesisBlock, hc.currentHeader, h)
    }

    /** Head block and snap block are stored, and the database knows them. */
    ghost predicate MarkersOk()
      reads this, db
    {
      && Stored(db.headers, currentBlock) && Stored(db.headers, currentSnapBlock)
      && db.headBlock == currentBlock.hash && db.headFast == currentSnapBlock.hash
    }

    /** What every block writer and every rewind relies on and keeps: the header chain is consistent and the markers are
      in order. */
    ghost predicate Usable()
      reads this, hc, db
    {
      Wired() && hc.Consistent() && MarkersOk()
    }

    /** The index is linked up to the head header, and the head block is on that path, at the head header or below, as a
      rewind can leave it. Entries may be left over above the head header. */
    ghost predicate Aligned()
      reads this, hc, db
    {
      Wired() && hc.Headed() && OnChain(currentBlock)
    }

    /** The index is exactly the path genesis..h. */
    ghost predicate IndexExact(h: Header)
      reads this, hc, db
    {
      Wired() && hc.Valid() && hc.currentHeader == h
    }

    /** The lookup holds every transaction of the path genesis..currentBlock; it may hold others too. */
    ghost predicate LookupComplete()
      reads this, db
    {
      && Closed(db.headers, genesisBlock) && Stored(db.headers, currentBlock)
      && TxComplete(db.headers, PathTo(db.headers, genesisBlock, currentBlock), db.txs, currentBlock.number)
    }

    /** The lookup holds exactly the transactions of the path genesis..currentBlock. */
    ghost predicate LookupExact()
      reads this, db
    {
      && Closed(db.headers, genesisBlock) && Stored(db.headers, currentBlock)
      && TxIndexed(db.headers, PathTo(db.headers, genesisBlock, currentBlock), db.txs, currentBlock.number)
    }

    /** Opens the chain at genesis. */
    constructor (db: Database, hc: HeaderChain, genesis: Header, pathScheme: bool, pivot: Option<nat>,
                 states: set<Root>, recoverable: set<Root>)
      requires hc.db == db && hc.genesisHeader == genesis && hc.Valid() && hc.currentHeader == genesis
      requires db.headBlock == genesis.hash && db.headFast == genesis.hash
      ensures Usable() && Aligned() && IndexExact(genesis)
              && (LookupExact() <==> TxIndexed(db.headers, db.canon, db.txs, 0))
      ensures currentBlock == genesis && currentSnapBlock == genesis
      ensures this.db == db && this.hc == hc && genesisBlock == genesis && this.pathScheme == pathScheme
              && this.pivot == pivot
      ensures this.states == states && this.recoverable == recoverable
    {
      this.db, this.hc, genesisBlock, currentBlock, currentSnapBlock := db, hc, genesis, genesis, genesis;
      this.pathScheme, this.pivot, this.states, this.recoverable := pathScheme, pivot, states, recoverable;
      new;
      hc.ValidHeaded();
      hc.HeadedConsistent();
      CanonicalUnique(db.headers, db.canon, PathTo(db.headers, genesis, genesis), genesis);
    }

    /** Makes a block the head: index entry, lookup entries and all markers, in one batch. */
    method WriteHeadBlock(block: Header)
      requires Wired()
      modifies this`currentBlock, this`currentSnapBlock, hc, db
      ensures db.headers == old(db.headers)
      ensures db.canon == old(db.canon)[block.number := block.hash]
      ensures db.txs == WithBlockTxs(old(db.txs), block)
      ensures db.headHeader == block.hash && db.headFast == block.hash && db.headBlock == block.hash
      ensures currentBlock == block && currentSnapBlock == block
      ensures hc.currentHeader == block && hc.currentHeaderHash == block.hash
      // Whenever the index was linked up to the parent, it is now linked up to the block.
      ensures LinkedToParent(db.headers, old(db.canon), block) ==> PathUpTo(db.headers, db.canon, block.number)
    {
      var batch := WriteHeadFastBlockHash(WriteHeadHeaderHash(EMPTY_BATCH, block.hash), block.hash);
      batch := WriteTxLookupEntries(WriteCanonicalHash(batch, block.hash, block.number), block);
      batch := WriteHeadBlockHash(batch, block.hash);
      FlushNothing(db.headers);
      HeadIndex(db.headers, db.canon, block);
      db.Write(batch);
      assert db.canon == old(db.canon)[block.number := block.hash];
      assert db.txs == WithBlockTxs(old(db.txs), block);
      hc.currentHeader := block;
      hc.currentHeaderHash := block.hash;
      currentSnapBlock := block;
      currentBlock := block;
    }

    static lemma HeadIndex(hs: HeaderStore, canon: CanonIndex, block: Header)
      ensures LinkedToParent(hs, canon, block) ==> PathUpTo(hs, canon[block.number := block.hash], block.number)
    {
      if LinkedToParent(hs, canon, block) {
        var canon' := canon[block.number := block.hash];
        forall n: nat | n <= block.number ensures LinkedAt(hs, canon', n) {
          assert n < block.number ==> LinkedAt(hs, canon, n);
        }
      }
    }

    /** Collects the blocks from a head down to a number (the one-sided loops at the start of reorg). */
    method Descend(head: Header, number: nat, ghost path: CanonIndex)
      returns (blocks: seq<Header>, rest: Option<Header>)
      requires Wired() && Closed(db.headers, genesisBlock) && Stored(db.headers, head) && number <= head.number
      requires PathUpTo(db.headers, path, head.number) && path[head.number] == head.hash
      ensures Segment(db.headers, path, head.number, blocks) && |blocks| == head.number - number
      ensures rest.Some? && Stored(db.headers, rest.value) && rest.value.number == number
              && rest.value.hash == path[number]
    {
      blocks, rest := [], Some(head);
      while rest.Some? && rest.value.number != number
        invariant rest.Some? && Stored(db.headers, rest.value) && number <= rest.value.number <= head.number
        invariant path[rest.value.number] == rest.value.hash
        invariant Segment(db.headers, path, head.number, blocks) && |blocks| == head.number - rest.value.number
        decreases if rest.Some? then rest.value.number else 0
      {
        var h := rest.value;
        assert Stored(db.headers, Parent(db.headers, genesisBlock, h)) && LinkedAt(db.headers, path, h.number);
        blocks := blocks + [h];
        rest := GetHeader(db.headers, h.parent, h.number - 1);
      }
    }

    /** Steps both chains back together until they meet. */
    method Meet(oldHead: Header, newHead: Header, ghost oldPath: CanonIndex, ghost newPath: CanonIndex)
      returns (oldChain: seq<Header>, newChain: seq<Header>, common: Header, error: Option<ReorgError>)
      requires Wired() && Closed(db.headers, genesisBlock) && oldHead.number == newHead.number
      requires Stored(db.headers, oldHead) && PathUpTo(db.headers, oldPath, oldHead.number)
               && oldPath[oldHead.number] == oldHead.hash
      requires Stored(db.headers, newHead) && PathUpTo(db.headers, newPath, newHead.number)
               && newPath[newHead.number] == newHead.hash
      ensures error == None
      ensures Segment(db.headers, oldPath, oldHead.number, oldChain)
              && Segment(db.headers, newPath, newHead.number, newChain)
      ensures Stored(db.headers, common) && common.number <= oldHead.number
      ensures |oldChain| == |newChain| == oldHead.number - common.number
      ensures oldPath[common.number] == common.hash == newPath[common.number]
      ensures forall n: nat | common.number < n <= oldHead.number :: oldPath[n] != newPath[n]
    {
      var o, w := oldHead, newHead;
      oldChain, newChain := [], [];
      while o.hash != w.hash
        invariant Stored(db.headers, o) && Stored(db.headers, w) && o.number == w.number <= oldHead.number
        invariant oldPath[o.number] == o.hash && newPath[w.number] == w.hash
        invariant Segment(db.headers, oldPath, oldHead.number, oldChain)
                  && Segment(db.headers, newPath, newHead.number, newChain)
        invariant |oldChain| == |newChain| == oldHead.number - o.number
        invariant forall n: nat | o.number < n <= oldHead.number :: oldPath[n] != newPath[n]
        decreases o.number
      {
        assert ClosedAt(db.headers, genesisBlock, o.hash) && ClosedAt(db.headers, genesisBlock, w.hash);
        assert Stored(db.headers, Parent(db.headers, genesisBlock, o)) && LinkedAt(db.headers, oldPath, o.number);
        assert Stored(db.headers, Parent(db.headers, genesisBlock, w)) && LinkedAt(db.headers, newPath, w.number);
        oldChain, newChain := oldChain + [o], newChain + [w];
        var o' := GetHeader(db.headers, o.parent, o.number - 1);
        if o'.None? {
          assert false;
          return oldChain, newChain, o, Some(InvalidOldChain);
        }
        var w' := GetHeader(db.headers, w.parent, w.number - 1);
        if w'.None? {
          assert false;
          return oldChain, newChain, o, Some(InvalidNewChain);
        }
        o, w := o'.value, w'.value;
      }
      return oldChain, newChain, o, None;
    }

    /** Finds the highest common block of the two chains and the blocks each has above it. */
    method FindFork(oldHead: Header, newHead: Header, ghost oldPath: CanonIndex, ghost newPath: CanonIndex)
      returns (oldChain: seq<Header>, newChain: seq<Header>, common: Header, error: Option<ReorgError>)
      requires Wired() && Closed(db.headers, genesisBlock)
      requires CanonicalTo(db.headers, oldPath, oldHead) && CanonicalTo(db.headers, newPath, newHead)
      ensures error == None
      ensures Segment(db.headers, oldPath, oldHead.number, oldChain) && |oldChain| + common.number == oldHead.number
      ensures Segment(db.headers, newPath, newHead.number, newChain) && |newChain| + common.number == newHead.number
      ensures Stored(db.headers, common) && oldPath[common.number] == common.hash == newPath[common.number]
      ensures forall n: nat | common.number < n <= oldHead.number && n <= newHead.number :: oldPath[n] != newPath[n]
    {
      oldChain, newChain := [], [];
      var o, w := Some(oldHead), Some(newHead);
      if oldHead.number > newHead.number {
        oldChain, o := Descend(oldHead, newHead.number, oldPath);
      } else {
        newChain, w := Descend(newHead, oldHead.number, newPath);
      }
      if o.None? {
        assert false;
        return oldChain, newChain, oldHead, Some(InvalidOldChain);
      }
      if w.None? {
        assert false;
        return oldChain, newChain, oldHead, Some(InvalidNewChain);
      }
      var oldMore, newMore;
      ShorterPath(db.headers, oldPath, oldHead.number, o.value.number);
      ShorterPath(db.headers, newPath, newHead.number, w.value.number);
      oldMore, newMore, common, error := Meet(o.value, w.value, oldPath, newPath);
      SegmentJoin(db.headers, oldPath, oldHead.number, oldChain, oldMore);
      SegmentJoin(db.headers, newPath, newHead.number, newChain, newMore);
      oldChain, newChain := oldChain + oldMore, newChain + newMore;
    }

    /** A segment continued by the segment below it. */
    static lemma SegmentJoin(hs: HeaderStore, path: CanonIndex, top: nat, a: seq<Header>, b: seq<Header>)
      requires Segment(hs, path, top, a) && (|a| <= top ==> Segment(hs, path, top - |a|, b)) && (|a| > top ==> b == [])
      ensures Segment(hs, path, top, a + b)
    {
      forall i | 0 <= i < |a + b|
        ensures Stored(hs, (a + b)[i]) && (a + b)[i].number == top - i && top - i in path
                && path[top - i] == (a + b)[i].hash
      {
        if i >= |a| {
          assert (a + b)[i] == b[i - |a|];
        }
      }
    }

    static lemma ShorterPath(hs: HeaderStore, path: CanonIndex, top: nat, top': nat)
      requires PathUpTo(hs, path, top) && top' <= top
      ensures PathUpTo(hs, path, top')
    {
    }

    /** While new blocks are applied: the index follows the new path from the common block up to cur. */
    ghost predicate Applying(hs: HeaderStore, oldIndex: CanonIndex, newPath: CanonIndex, common: nat, cur: nat)
      reads this, db
    {
      Wired() && db.headers == hs && db.canon == Rerouted(oldIndex, newPath, common, cur, None)
    }

    /** Writes the new blocks, all but the new head, in forward order. */
    method ApplyNewChain(newChain: seq<Header>, common: Header, ghost newHead: Header, ghost oldIndex: CanonIndex,
                         ghost newPath: CanonIndex, ghost tip: nat)
      returns (rebirthTxs: seq<TxHash>)
      requires Wired() && Stored(db.headers, newHead) && CanonicalTo(db.headers, newPath, newHead)
      requires Segment(db.headers, newPath, newHead.number, newChain) && |newChain| + common.number == newHead.number
      requires tip == if newChain == [] then newHead.number else newHead.number - 1
      requires db.canon == oldIndex
      modifies this`currentBlock, this`currentSnapBlock, hc, db
      ensures Applying(old(db.headers), oldIndex, newPath, common.number, tip)
      ensures Reborn(db.headers, newPath, old(db.txs), db.txs, rebirthTxs, common.number, tip)
      // The index is linked up to the last block written whenever it was linked up to the common block.
      ensures Follows(db.headers, oldIndex, newPath, common.number) ==> PathUpTo(db.headers, db.canon, tip)
      ensures |newChain| > 1 ==> currentBlock == newChain[1] && currentBlock.number == tip
      ensures |newChain| <= 1 ==> tip == common.number && currentBlock == old(currentBlock)
    {
      ghost var hs, oldTxs, cur := db.headers, db.txs, common.number;
      RerouteNothing(oldIndex, newPath, cur);
      rebirthTxs := [];
      var i := |newChain| - 1;
      while i >= 1
        invariant -1 <= i
        invariant i >= 0 ==> cur + i + 1 == newHead.number && i < |newChain|
        invariant i < 0 ==> newChain == [] && cur == tip
        invariant Applying(hs, oldIndex, newPath, common.number, cur)
        invariant Reborn(hs, newPath, oldTxs, db.txs, rebirthTxs, common.number, cur) && common.number <= cur
        invariant currentBlock == if i + 1 < |newChain| then newChain[i + 1] else old(currentBlock)
      {
        var block := newChain[i];
        rebirthTxs := ApplyBlock(block, rebirthTxs, oldIndex, newPath, oldTxs, common.number);
        cur := block.number;
        i := i - 1;
      }
      if Follows(hs, oldIndex, newPath, common.number) {
        ReroutedLinked(hs, oldIndex, newPath, common.number, tip);
      }
    }

    /** One step of ApplyNewChain. */
    method ApplyBlock(block: Header, rebirthTxs: seq<TxHash>, ghost oldIndex: CanonIndex, ghost newPath: CanonIndex,
                      ghost oldTxs: TxIndex, ghost common: nat) returns (rebirthTxs': seq<TxHash>)
      requires common < block.number && Applying(db.headers, oldIndex, newPath, common, block.number - 1)
      requires Stored(db.headers, block) && block.number in newPath && newPath[block.number] == block.hash
      requires Reborn(db.headers, newPath, oldTxs, db.txs, rebirthTxs, common, block.number - 1)
      modifies this`currentBlock, this`currentSnapBlock, hc, db
      ensures Applying(old(db.headers), oldIndex, newPath, common, block.number)
      ensures currentBlock == block
      ensures Reborn(db.headers, newPath, oldTxs, db.txs, rebirthTxs', common, block.number)
    {
      RebornNext(db.headers, newPath, oldTxs, db.txs, rebirthTxs, common, block);
      RerouteNext(oldIndex, newPath, common, block.number - 1);
      rebirthTxs' := rebirthTxs + block.txs;
      WriteHeadBlock(block);
    }

    /** Switches the canonical chain from oldHead to newHead's chain, up to but not including newHead itself.
      When newHead is oldHead or an ancestor of it, the index is cut at newHead instead. Below the highest common block
      the index is left as it is; above the new tip everything is deleted, left-over entries too. */
    method Reorg(oldHead: Header, newHead: Header) returns (error: Option<ReorgError>, ghost tip: nat)
      requires Usable() && oldHead == currentBlock && Stored(db.headers, newHead)
      modifies this`currentBlock, this`currentSnapBlock, hc, db
      ensures error == None && Wired() && db.headers == old(db.headers)
      ensures var path, fork := PathTo(db.headers, genesisBlock, newHead),
                  Fork(db.headers, genesisBlock, oldHead, newHead);
              && tip == Tip(fork, newHead)
              && db.canon == Rerouted(old(db.canon), path, fork, tip, Some(tip))
      ensures old(Aligned()) ==> db.canon == IndexUpTo(PathTo(db.headers, genesisBlock, newHead), tip)
      ensures old(LookupComplete()) && UniqueTxs(db.headers, genesisBlock, newHead) ==>
                TxComplete(db.headers, PathTo(db.headers, genesisBlock, newHead), db.txs, tip)
      ensures old(LookupExact()) && UniqueTxs(db.headers, genesisBlock, newHead) ==>
                TxIndexed(db.headers, PathTo(db.headers, genesisBlock, newHead), db.txs, tip)
    {
      ghost var hs, oldIndex, oldTxs := db.headers, db.canon, db.txs;
      ghost var oldPath, newPath := PathTo(hs, genesisBlock, oldHead), PathTo(hs, genesisBlock, newHead);
      tip := 0;
      var oldChain, newChain, common;
      oldChain, newChain, common, error := FindFork(oldHead, newHead, oldPath, newPath);
      if error.Some? {
        assert false;
        return;
      }
      tip := if newChain == [] then newHead.number else newHead.number - 1;
      ForkIs(hs, genesisBlock, oldHead, newHead, common.number);
      CutFollows(newHead, tip);
      assert TxMixed(hs, newPath, oldTxs, oldTxs, common.number, common.number);
      var deletedTxs := CollectTxs(oldChain);
      forall t ensures t in deletedTxs <==> InRange(hs, oldPath, t, common.number, oldHead.number) {
        SegmentTxs(hs, oldPath, oldHead.number, oldChain, t);
      }
      var rebirthTxs := ApplyNewChain(newChain, common, newHead, oldIndex, newPath, tip);
      var number := if |newChain| > 1 then newChain[1].number else common.number;
      DeleteUseless(deletedTxs, rebirthTxs, number, hs, oldIndex, oldPath, newPath, oldTxs, common.number, oldHead,
                    newHead);
      return None, tip;
    }

    /** From an index linked up to the head header only the new path is left. */
    lemma CutFollows(newHead: Header, tip: nat)
      requires Usable() && Stored(db.headers, newHead)
      requires Fork(db.headers, genesisBlock, currentBlock, newHead) <= tip <= newHead.number
      ensures Aligned() ==>
                Rerouted(db.canon, PathTo(db.headers, genesisBlock, newHead),
                         Fork(db.headers, genesisBlock, currentBlock, newHead), tip, Some(tip))
                == IndexUpTo(PathTo(db.headers, genesisBlock, newHead), tip)
    {
      if Aligned() {
        hc.HeadedConsistent();
        FollowsFork(db.headers, genesisBlock, db.canon, hc.currentHeader, currentBlock, newHead);
        GaplessAbove(db.canon, tip, Some(tip));
        ReroutedCut(db.headers, db.canon, PathTo(db.headers, genesisBlock, newHead), newHead,
                    Fork(db.headers, genesisBlock, currentBlock, newHead), tip);
      }
    }

    /** Deletes the lookup entries of transactions that were not reborn and the index entries above the new tip. */
    method DeleteUseless(deletedTxs: seq<TxHash>, rebirthTxs: seq<TxHash>, number: nat, ghost hs: HeaderStore,
                         ghost oldIndex: CanonIndex, ghost oldPath: CanonIndex, ghost newPath: CanonIndex,
                         ghost oldTxs: TxIndex, ghost common: nat, ghost oldHead: Header, ghost newHead: Header)
      requires Applying(hs, oldIndex, newPath, common, number)
      requires Closed(hs, genesisBlock) && CanonicalTo(hs, oldPath, oldHead) && CanonicalTo(hs, newPath, newHead)
      requires common <= number <= newHead.number && common <= oldHead.number && oldPath[common] == newPath[common]
      requires Numbered(hs, oldIndex)
      requires NoRepeat(hs, newPath) ==> TxMixed(hs, newPath, oldTxs, db.txs, common, number)
      requires forall t :: t in deletedTxs <==> InRange(hs, oldPath, t, common, oldHead.number)
      requires forall t :: t in rebirthTxs <==> InRange(hs, newPath, t, common, number)
      modifies db
      ensures db.headers == hs
      ensures db.canon == Rerouted(oldIndex, newPath, common, number, Some(number))
      ensures TxComplete(hs, oldPath, oldTxs, oldHead.number) && NoRepeat(hs, newPath) ==>
                TxComplete(hs, newPath, db.txs, number)
      ensures TxIndexed(hs, oldPath, oldTxs, oldHead.number) && NoRepeat(hs, newPath) ==>
                TxIndexed(hs, newPath, db.txs, number)
    {
      ghost var mixed := db.txs;
      var batch := DeleteTxLookupEntries(EMPTY_BATCH, HashDifference(deletedTxs, rebirthTxs));
      forall n: nat | n > number && n in db.canon ensures db.canon[n] != ZERO_HASH {
        assert NumberedAt(hs, oldIndex, n) && ClosedAt(hs, genesisBlock, oldIndex[n]);
      }
      var full := DeleteCanonAbove(db.canon, number, batch);
      CutDeletes(oldIndex, newPath, common, number);
      FlushIs(db.canon, full.canon, Rerouted(oldIndex, newPath, common, number, Some(number)));
      FlushNothing(db.headers);
      db.Write(full);
      if TxComplete(hs, oldPath, oldTxs, oldHead.number) && NoRepeat(hs, newPath) {
        ReorgTxs(hs, oldPath, newPath, oldTxs, mixed, db.txs, common, oldHead.number, number, newHead.number);
      }
    }

    /** Makes a stored block the head, with a reorg when its parent is not the current head. The index is exactly the
      path to the block if and only if it followed that path as far as it is left as it is, and nothing above the block
      has survived: without a reorg everything above does, with one what lies beyond a gap. */
    method SetCanonical(head: Header) returns (error: Option<ReorgError>)
      requires Usable() && Stored(db.headers, head)
      modifies this`currentBlock, this`currentSnapBlock, hc, db
      ensures error == None && Usable() && db.headers == old(db.headers)
      ensures currentBlock == head && currentSnapBlock == head && hc.currentHeader == head
      ensures db.headBlock == head.hash && db.headFast == head.hash
      ensures db.canon == Switched(db.headers, genesisBlock, old(db.canon), old(currentBlock), head)
      ensures head.parent == old(currentBlock).hash ==> db.canon == old(db.canon)[head.number := head.hash]
      ensures db.canon == PathTo(db.headers, genesisBlock, head) <==>
                Follows(db.headers, old(db.canon), PathTo(db.headers, genesisBlock, head),
                        Base(db.headers, genesisBlock, old(currentBlock), head))
                && NothingAbove(old(db.canon), head.number, CutFor(db.headers, genesisBlock, old(currentBlock), head))
      ensures IndexExact(head) <==> db.canon == PathTo(db.headers, genesisBlock, head)
      // A gap is made exactly when the index ended below the blocks to be written.
      ensures old(Gapless(db.canon)) ==>
                (Gapless(db.canon) <==> Base(db.headers, genesisBlock, old(currentBlock), head) in old(db.canon))
      // From an index linked up to the head header: what is left over above the new head is all that can be wrong.
      ensures old(Aligned()) ==>
                && Aligned() && IndexUpTo(db.canon, head.number) == PathTo(db.headers, genesisBlock, head)
                && (IndexExact(head) <==> head.parent != old(currentBlock).hash || head.number + 1 !in old(db.canon))
      // From an exact index: entries are left over exactly when the head header was above the new block.
      ensures old(Aligned() && hc.Valid()) ==>
                (IndexExact(head) <==>
                   head.parent != old(currentBlock).hash || old(hc.currentHeader).number <= head.number)
      ensures old(LookupComplete()) && UniqueTxs(db.headers, genesisBlock, head) ==> LookupComplete()
      ensures old(LookupExact()) && UniqueTxs(db.headers, genesisBlock, head) ==> LookupExact()
    {
      ghost var path := PathTo(db.headers, genesisBlock, head);
      SwitchOutcome(head);
      ghost var tip;
      error, tip := LeadTo(head);
      if error.Some? {
        assert false;
        return;
      }
      if UniqueTxs(db.headers, genesisBlock, head) && TxComplete(db.headers, path, db.txs, tip) {
        IndexNext(db.headers, path, db.txs, tip, head);
      }
      WriteHeadBlock(head);
      SwitchedState(head);
      return None;
    }

    /** What is known after the head has been written. */
    lemma SwitchedState(head: Header)
      requires Wired() && Closed(db.headers, genesisBlock) && Stored(db.headers, head)
      requires hc.currentHeader == head && hc.currentHeaderHash == head.hash == db.headHeader && currentBlock == head
      ensures hc.Valid() <==> CanonicalTo(db.headers, db.canon, head)
      ensures hc.Consistent() <==> Numbered(db.headers, db.canon)
      ensures hc.Headed() <==> Aligned()
      ensures hc.Headed() <==> LinkedTo(db.headers, db.canon, head)
    {
      ParentOnPath(db.headers, genesisBlock, head);
    }

    /** What the index will be when a stored block becomes the head. */
    lemma SwitchOutcome(head: Header)
      requires Usable() && Stored(db.headers, head)
      ensures var path, base := PathTo(db.headers, genesisBlock, head),
                  Base(db.headers, genesisBlock, currentBlock, head);
              var r, cut := Switched(db.headers, genesisBlock, db.canon, currentBlock, head),
                  CutFor(db.headers, genesisBlock, currentBlock, head);
              && (r == path <==> Follows(db.headers, db.canon, path, base) && NothingAbove(db.canon, head.number, cut))
              && (r == path <==> CanonicalTo(db.headers, r, head))
              && Numbered(db.headers, r)
              && (Gapless(db.canon) ==> (Gapless(r) <==> base in db.canon))
              && (cut.None? <==> head.parent == currentBlock.hash)
              && (cut.None? ==> r == db.canon[head.number := head.hash])
      ensures Aligned() ==>
                var path, r := PathTo(db.headers, genesisBlock, head),
                    Switched(db.headers, genesisBlock, db.canon, currentBlock, head);
                && Follows(db.headers, db.canon, path, Base(db.headers, genesisBlock, currentBlock, head))
                && IndexUpTo(r, head.number) == path && LinkedTo(db.headers, r, head)
      ensures Aligned() && hc.Valid() ==> (head.parent == currentBlock.hash ==>
                (hc.currentHeader.number <= head.number <==> head.number + 1 !in db.canon))
    {
      var path, base := PathTo(db.headers, genesisBlock, head), Base(db.headers, genesisBlock, currentBlock, head);
      var r, cut := Switched(db.headers, genesisBlock, db.canon, currentBlock, head),
          CutFor(db.headers, genesisBlock, currentBlock, head);
      GenesisEntry(head);
      ForkAgrees(db.headers, genesisBlock, currentBlock, head);
      if cut.None? {
        ForkOfChild(db.headers, genesisBlock, currentBlock, head);
      }
      HeadWritten(db.headers, genesisBlock, db.canon, currentBlock, head);
      ReroutedExact(db.headers, db.canon, path, head, base, cut);
      if Gapless(db.canon) {
        GaplessAbove(db.canon, head.number, cut);
        ReroutedGapless(db.headers, db.canon, path, head, base, cut);
      }
      if Aligned() {
        hc.HeadedConsistent();
        FollowsBase(db.headers, genesisBlock, db.canon, hc.currentHeader, currentBlock, head);
        SwitchedLinked(db.headers, db.canon, path, head, base, cut);
      }
    }

    /** Every index and every path start with genesis. */
    lemma GenesisEntry(head: Header)
      requires Usable() && Stored(db.headers, head)
      ensures Agree(db.canon, PathTo(db.headers, genesisBlock, head), 0)
    {
      hc.GenesisAgrees(PathTo(db.headers, genesisBlock, head), head.number);
    }

    static lemma SwitchedLinked(hs: HeaderStore, canon: CanonIndex, path: CanonIndex, head: Header, base: nat,
                                cut: Option<nat>)
      requires CanonicalTo(hs, path, head) && base <= head.number && Follows(hs, canon, path, base)
      requires Gapless(Rerouted(canon, path, base, head.number, cut))
      requires Numbered(hs, Rerouted(canon, path, base, head.number, cut))
      ensures IndexUpTo(Rerouted(canon, path, base, head.number, cut), head.number) == path
      ensures LinkedTo(hs, Rerouted(canon, path, base, head.number, cut), head)
    {
      var r := Rerouted(canon, path, base, head.number, cut);
      var top: nat :| EndsAt(r, top);
      PathsAgree(hs, canon, path, base);
      SamePathLinked(hs, path, r, head.number);
      assert LinkedUpTo(hs, r, head, top);
    }

    /** The reorg, if one is needed; what remains is to write the head. */
    method LeadTo(head: Header) returns (error: Option<ReorgError>, ghost tip: nat)
      requires Usable() && Stored(db.headers, head)
      modifies this`currentBlock, this`currentSnapBlock, hc, db
      ensures error == None && Wired() && db.headers == old(db.headers)
      ensures tip == head.number || tip + 1 == head.number
      ensures db.canon[head.number := head.hash] ==
              Switched(db.headers, genesisBlock, old(db.canon), old(currentBlock), head)
      ensures old(LookupComplete()) && UniqueTxs(db.headers, genesisBlock, head) ==>
                TxComplete(db.headers, PathTo(db.headers, genesisBlock, head), db.txs, tip)
      ensures old(LookupExact()) && UniqueTxs(db.headers, genesisBlock, head) ==>
                TxIndexed(db.headers, PathTo(db.headers, genesisBlock, head), db.txs, tip)
    {
      ghost var path := PathTo(db.headers, genesisBlock, head);
      GenesisEntry(head);
      HeadWritten(db.headers, genesisBlock, db.canon, currentBlock, head);
      error, tip := None, currentBlock.number;
      if head.parent != currentBlock.hash {
        ForkAgrees(db.headers, genesisBlock, currentBlock, head);
        error, tip := Reorg(currentBlock, head);
      } else {
        ForkOfChild(db.headers, genesisBlock, currentBlock, head);
        PathPrefix(db.headers, genesisBlock, head, currentBlock);
        IndexSamePath(db.headers, PathTo(db.headers, genesisBlock, currentBlock), path, db.txs, tip);
      }
    }

    static lemma IndexMoreHeaders(hs: HeaderStore, block: Header, path: CanonIndex, txs: TxIndex, top: nat)
      requires PathUpTo(hs, path, top) && (block.hash in hs ==> hs[block.hash] == block)
      ensures TxComplete(hs, path, txs, top) ==> TxComplete(hs[block.hash := block], path, txs, top)
      ensures TxIndexed(hs, path, txs, top) ==> TxIndexed(hs[block.hash := block], path, txs, top)
    {
      var hs' := hs[block.hash := block];
      forall t, n: nat | n <= top ensures OnPath(hs', path, t, n) <==> OnPath(hs, path, t, n) {
        assert LinkedAt(hs, path, n);
      }
    }

    /** Stores a block whose parent is known. It changes nothing else. */
    method WriteBlock(block: Header)
      requires Usable() && NoCollision(db.headers, [block])
      requires GetHeader(db.headers, block.parent, block.number - 1).Some?
      modifies db
      ensures db.headers == old(db.headers)[block.hash := block] && db.canon == old(db.canon)
      ensures Usable() && Stored(db.headers, block)
      ensures old(Aligned()) ==> Aligned()
      ensures old(hc.Valid()) ==> hc.Valid()
      ensures old(LookupComplete()) ==> LookupComplete()
      ensures old(LookupExact()) ==> LookupExact()
    {
      ghost var hs, hs' := db.headers, db.headers[block.hash := block];
      AddHeaderClosed(hs, genesisBlock, block);
      hc.MoreHeaders(hs');
      SamePath(hs, hs', genesisBlock, currentBlock);
      IndexMoreHeaders(hs, block, PathTo(hs, genesisBlock, currentBlock), db.txs, currentBlock.number);
      if Stored(hs, hc.currentHeader) {
        SamePath(hs, hs', genesisBlock, hc.currentHeader);
      }
      hc.HeadedConsistent();
      db.headers := db.headers[block.hash := block];
      hc.HeadedConsistent();
    }

    /** Stores a new block on a known parent and makes it the head. */
    method WriteBlockAndSetHead(block: Header) returns (error: Option<ReorgError>)
      requires Usable() && NoCollision(db.headers, [block])
      requires GetHeader(db.headers, block.parent, block.number - 1).Some?
      modifies this`currentBlock, this`currentSnapBlock, hc, db
      ensures error == None && Usable() && db.headers == old(db.headers)[block.hash := block]
      ensures Closed(db.headers, genesisBlock) && Stored(db.headers, block)
      ensures currentBlock == block && currentSnapBlock == block && hc.currentHeader == block
      ensures db.headBlock == block.hash && db.headFast == block.hash
      ensures db.canon == Switched(db.headers, genesisBlock, old(db.canon), old(currentBlock), block)
      ensures block.parent == old(currentBlock).hash ==> db.canon == old(db.canon)[block.number := block.hash]
      ensures db.canon == PathTo(db.headers, genesisBlock, block) <==>
                Follows(db.headers, old(db.canon), PathTo(db.headers, genesisBlock, block),
                        Base(db.headers, genesisBlock, old(currentBlock), block))
                && NothingAbove(old(db.canon), block.number, CutFor(db.headers, genesisBlock, old(currentBlock), block))
      ensures IndexExact(block) <==> db.canon == PathTo(db.headers, genesisBlock, block)
      ensures old(Gapless(db.canon)) ==>
                (Gapless(db.canon) <==> Base(db.headers, genesisBlock, old(currentBlock), block) in old(db.canon))
      ensures old(Aligned()) ==>
                && Aligned() && IndexUpTo(db.canon, block.number) == PathTo(db.headers, genesisBlock, block)
                && (IndexExact(block) <==> block.parent != old(currentBlock).hash || block.number + 1 !in old(db.canon))
      ensures old(Aligned() && hc.Valid()) ==>
                (IndexExact(block) <==>
                   block.parent != old(currentBlock).hash || old(hc.currentHeader).number <= block.number)
      ensures old(LookupComplete()) && UniqueTxs(db.headers, genesisBlock, block) ==> LookupComplete()
      ensures old(LookupExact()) && UniqueTxs(db.headers, genesisBlock, block) ==> LookupExact()
    {
      WriteBlock(block);
      error := SetCanonical(block);
    }

    // ----- Rewinding -----

    /** The head block's state is available, unless it is genesis. */
    ghost predicate Stateful()
      reads this
    {
      currentBlock.root in states || currentBlock.number == 0
    }

    /** Finds the block to fall back to from header, in the scheme in use. */
    method RewindHead(header: Header, root: Root) returns (newHead: Header, rootNumber: nat)
      requires Wired() && Closed(db.headers, genesisBlock) && Stored(db.headers, header)
      modifies this`states
      ensures newHead.root in states || newHead.number == 0
      ensures RewoundTo(db.headers, genesisBlock, pathScheme, old(states), recoverable, pivot, header, root, newHead)
      ensures RootNumberOk(db.headers, header, root, rootNumber)
      ensures !pathScheme ==> states == old(states)
      // In the hash scheme the search goes back to the pivot, or, without one, over the last 90000 blocks.
      ensures !pathScheme && pivot.None? ==>
                FirstFallback(db.headers, genesisBlock, states, header, root,
                              if header.number > 90000 then header.number - 90000 else 0, newHead)
      ensures !pathScheme && pivot.Some? ==>
                FirstFallback(db.headers, genesisBlock, states, header, root, pivot.value, newHead)
    {
      ghost var steps;
      if pathScheme {
        var states';
        newHead, rootNumber, states', steps :=
          RewindPathHead(db.headers, genesisBlock, states, recoverable, pivot, header, root);
        states := states';
      } else {
        newHead, rootNumber, steps := RewindHashHead(db.headers, genesisBlock, states, pivot, header, root);
      }
      assert RewoundBy(db.headers, genesisBlock, pathScheme, old(states), recoverable, pivot, header, root, newHead,
                       steps);
    }

    /** The update callback of a rewind: pulls the head block and snap block markers down to header or below.
      It reports whether the chain is stateless at a block other than genesis, which never happens. */
    method UpdateHeads(header: Header, root: Root, rootNumber: nat) returns (rootNumber': nat, crit: bool)
      requires Wired() && Closed(db.headers, genesisBlock) && Stored(db.headers, header)
      modifies this`currentBlock, this`currentSnapBlock, this`states, db`headBlock, db`headFast
      ensures !crit
      ensures header.number > old(currentBlock).number ==>
                currentBlock == old(currentBlock) && states == old(states) && rootNumber' == rootNumber
      ensures header.number <= old(currentBlock).number ==>
                && RewoundTo(db.headers, genesisBlock, pathScheme, old(states), recoverable, pivot, header, root,
                             currentBlock)
                && RootNumberOk(db.headers, header, root, rootNumber')
                && Stateful() && db.headBlock == currentBlock.hash
      ensures header.number > old(currentBlock).number ==> db.headBlock == old(db.headBlock)
      ensures !pathScheme ==> states == old(states)
      ensures currentSnapBlock == if header.number < old(currentSnapBlock).number then header else old(currentSnapBlock)
      ensures db.headFast == if header.number < old(currentSnapBlock).number then header.hash else old(db.headFast)
    {
      rootNumber', crit := rootNumber, false;
      if header.number <= currentBlock.number {
        var newHead, n := RewindHead(header, root);
        rootNumber' := n;
        db.headBlock := newHead.hash;
        currentBlock := newHead;
        if newHead.root !in states && newHead.number != 0 {
          assert false;
          crit := true;
        }
      }
      if header.number < currentSnapBlock.number {
        var found := GetHeader(db.headers, header.hash, header.number);
        var snap := if found.Some? then found.value else genesisBlock;
        db.headFast := snap.hash;
        currentSnapBlock := snap;
      }
    }

    /** The block is what a search found from a header of the path to the old head header that was not above the old
      head block; in the hash scheme no state comes or goes during a rewind. */
    ghost predicate Searched(hs: HeaderStore, oldHead: Header, oldStates: set<Root>, oldBlock: Header, root: Root,
                             start: Header, sts: set<Root>, block: Header)
      reads this`recoverable
    {
      && OnPathOf(hs, genesisBlock, oldHead, start) && start.number <= oldBlock.number
      && RewoundTo(hs, genesisBlock, pathScheme, sts, recoverable, pivot, start, root, block)
      && (!pathScheme ==> sts == oldStates)
    }

    /** How the head block is chosen by a rewind that has come down to hdr: it stays while hdr is above it; then it is
      what the last search found, whose start was hdr unless the block is below hdr. */
    ghost predicate Chosen(hs: HeaderStore, oldHead: Header, oldStates: set<Root>, oldBlock: Header, root: Root,
                           hdr: Header, block: Header, sts: set<Root>)
      reads this`recoverable
    {
      if hdr.number > oldBlock.number then block == oldBlock && sts == oldStates
      else
        && (block.root in sts || block.number == 0)
        && (exists start, before :: Searched(hs, oldHead, oldStates, oldBlock, root, start, before, block)
                                    && hdr.number <= start.number && (start == hdr || block.number < hdr.number))
    }

    /** One more header back: the head block stays below it or is searched for from it. */
    lemma ChosenNext(hs: HeaderStore, oldHead: Header, oldStates: set<Root>, oldBlock: Header, root: Root, top: bool,
                     hdr: Header, block: Header, sts: set<Root>, hdr': Header, block': Header, sts': set<Root>)
      requires if top then block == oldBlock && sts == oldStates
               else Chosen(hs, oldHead, oldStates, oldBlock, root, hdr, block, sts)
      requires hdr'.number + 1 == hdr.number && OnPathOf(hs, genesisBlock, oldHead, hdr')
      requires block.number <= oldBlock.number && (!pathScheme ==> sts == oldStates)
      requires if hdr'.number > block.number then block' == block && sts' == sts
               else RewoundTo(hs, genesisBlock, pathScheme, sts, recoverable, pivot, hdr', root, block')
                    && (block'.root in sts' || block'.number == 0)
      ensures Chosen(hs, oldHead, oldStates, oldBlock, root, hdr', block', sts')
      ensures OnceChosen(hs, oldHead, oldStates, oldBlock, root, block')
    {
      if hdr'.number <= block.number {
        assert Searched(hs, oldHead, oldStates, oldBlock, root, hdr', sts, block');
      } else if hdr'.number <= oldBlock.number {
        var start, before :| Searched(hs, oldHead, oldStates, oldBlock, root, start, before, block)
                             && hdr.number <= start.number && (start == hdr || block.number < hdr.number);
        assert Searched(hs, oldHead, oldStates, oldBlock, root, start, before, block');
      }
    }

    /** A head block chosen for a header is not above it, and is the header itself when the numbers are equal. It is on
      the path to the old head block whenever that was on the path to the old head header. */
    lemma ChosenOnPath(hs: HeaderStore, oldHead: Header, oldStates: set<Root>, oldBlock: Header, root: Root,
                       hdr: Header, block: Header, sts: set<Root>)
      requires Chosen(hs, oldHead, oldStates, oldBlock, root, hdr, block, sts)
      ensures block.number <= hdr.number && (block.number == hdr.number ==> block == hdr)
      ensures OnPathOf(hs, genesisBlock, oldHead, hdr) && OnPathOf(hs, genesisBlock, oldHead, oldBlock) ==>
                OnPathOf(hs, genesisBlock, oldBlock, block) && OnPathOf(hs, genesisBlock, hdr, block)
    {
      if hdr.number > oldBlock.number {
        OnOwnPath(hs, oldHead, oldBlock);
        OnPathBelow(hs, oldHead, hdr, oldBlock);
      } else {
        var start, before :| Searched(hs, oldHead, oldStates, oldBlock, root, start, before, block)
                             && hdr.number <= start.number && (start == hdr || block.number < hdr.number);
        RewoundOnPath(hs, genesisBlock, pathScheme, before, recoverable, pivot, start, root, block);
        OnLowerPath(hs, genesisBlock, oldHead, start, block);
        OnPathBelow(hs, oldHead, oldBlock, block);
        OnPathBelow(hs, oldHead, hdr, block);
      }
    }

    lemma OnOwnPath(hs: HeaderStore, head: Header, h: Header)
      ensures OnPathOf(hs, genesisBlock, head, h) ==> OnPathOf(hs, genesisBlock, h, h)
    {
      if OnPathOf(hs, genesisBlock, head, h) {
        ParentOnPath(hs, genesisBlock, h);
      }
    }

    lemma OnPathBelow(hs: HeaderStore, head: Header, mid: Header, h: Header)
      ensures OnPathOf(hs, genesisBlock, head, mid) && OnPathOf(hs, genesisBlock, head, h) && h.number <= mid.number ==>
                OnPathOf(hs, genesisBlock, mid, h)
    {
      if OnPathOf(hs, genesisBlock, head, mid) {
        OnLowerPath(hs, genesisBlock, head, mid, h);
      }
    }

    /** The block was the head block at some time during a rewind. */
    ghost predicate OnceChosen(hs: HeaderStore, oldHead: Header, oldStates: set<Root>, oldBlock: Header, root: Root,
                               block: Header)
      reads this`recoverable
    {
      block == oldBlock || exists start, sts :: Searched(hs, oldHead, oldStates, oldBlock, root, start, sts, block)
    }

    /** The head block is so far below the freezer limit that the rewind has to go on to it. */
    predicate Underflown(block: Header, frozen: nat) {
      block.number + 1 < frozen && (pivot.None? || block.number >= pivot.value)
    }

    /** One iteration of a rewind: markers first, then the head header and its deletions. */
    method RewindStep(root: Root, rootNumber: nat, b: Batch, origin: bool, ghost oldHead: Header)
      returns (rootNumber': nat, r: Batch, crit: bool)
      requires Wired() && hc.Rewinding(oldHead, b, origin) && hc.currentHeader.number > 0 && MarkersOk()
      modifies this`currentBlock, this`currentSnapBlock, this`states, hc, db`headHeader, db`headBlock, db`headFast
      ensures !crit && MarkersOk() && hc.Rewinding(oldHead, r, false)
      ensures hc.currentHeader == Parent(db.headers, genesisBlock, old(hc.currentHeader))
      ensures currentBlock.number <= old(currentBlock).number
      ensures currentSnapBlock == if hc.currentHeader.number < old(currentSnapBlock).number then hc.currentHeader
                                  else old(currentSnapBlock)
      ensures !pathScheme ==> states == old(states)
      ensures if hc.currentHeader.number > old(currentBlock).number
              then currentBlock == old(currentBlock) && states == old(states)
              else RewoundTo(db.headers, genesisBlock, pathScheme, old(states), recoverable, pivot, hc.currentHeader,
                             root, currentBlock) && Stateful()
    {
      var hdr := hc.currentHeader;
      var found := GetHeader(db.headers, hdr.parent, hdr.number - 1);
      var parent := if found.Some? then found.value else genesisBlock;
      assert parent == Parent(db.headers, genesisBlock, hdr);
      rootNumber', crit := UpdateHeads(parent, root, rootNumber);
      if parent.number <= old(currentBlock).number {
        RewoundOnPath(db.headers, genesisBlock, pathScheme, old(states), recoverable, pivot, parent, root,
                      currentBlock);
      }
      assert hc.Rewinding(oldHead, b, origin);
      r := hc.RewindOne(b, origin, oldHead);
    }

    /** The number is not above that of a block that was head block during the rewind and below the target asked for. */
    ghost predicate BelowTarget(hs: HeaderStore, oldHead: Header, oldStates: set<Root>, oldBlock: Header, root: Root,
                                head: nat, time: nat, n: nat)
      reads this`recoverable
    {
      if time == 0 then n < head
      else exists first: Header :: OnceChosen(hs, oldHead, oldStates, oldBlock, root, first) && first.time < time
                                   && n <= first.number
    }

    /** A rewind goes on to the number of a block that was head block meanwhile and underflowed the freezer. */
    ghost predicate Forced(oldHead: Header, oldBlock: Header, oldStates: set<Root>, root: Root, head: nat, time: nat,
                           frozen: nat -> nat, headBlock: nat, headTime: nat, goal: Header)
      reads this, hc, db
    {
      && headTime == 0 && BelowTarget(db.headers, oldHead, oldStates, oldBlock, root, head, time, headBlock)
      && goal.number == headBlock <= hc.currentHeader.number
      && OnceChosen(db.headers, oldHead, oldStates, oldBlock, root, goal)
      && (exists n: nat :: goal.number + 1 < frozen(n)) && (pivot.None? || goal.number >= pivot.value)
    }

    /** Where a rewind is going: the target asked for, or, when forced on, the number of goal, a block that was head
      block meanwhile; a head block that underflows the freezer has been looked at since. */
    ghost predicate Going(oldHead: Header, oldBlock: Header, oldStates: set<Root>, root: Root, head: nat, time: nat,
                          frozen: nat -> nat, headBlock: nat, headTime: nat, forced: bool, goal: Header)
      reads this, hc, db
    {
      && (!forced ==> headBlock == head && headTime == time)
      && (forced ==> Forced(oldHead, oldBlock, oldStates, root, head, time, frozen, headBlock, headTime, goal))
      && (Underflown(currentBlock, frozen(hc.currentHeader.number)) ==>
            if headTime > 0 then currentBlock.time >= headTime else currentBlock.number >= headBlock)
    }

    /** The state of the rewinding loop. Once the head has moved, the head block is chosen and the target known. */
    ghost predicate Progress(oldHead: Header, oldBlock: Header, oldStates: set<Root>, root: Root, head: nat, time: nat,
                             frozen: nat -> nat, batch: Batch, origin: bool,
                             headBlock: nat, headTime: nat, forced: bool, goal: Header)
      reads this, hc, db
    {
      && Wired() && hc.Rewinding(oldHead, batch, origin) && MarkersOk()
      && currentBlock.number <= oldBlock.number && (!pathScheme ==> states == oldStates)
      && (if origin then
            && !forced && headBlock == head && headTime == time
            && hc.currentHeader == oldHead && currentBlock == oldBlock && states == oldStates
          else
            && hc.currentHeader.number < oldHead.number && !Done(oldHead, head, time)
            && Chosen(db.headers, oldHead, oldStates, oldBlock, root, hc.currentHeader, currentBlock, states)
            && Going(oldHead, oldBlock, oldStates, root, head, time, frozen, headBlock, headTime, forced, goal))
    }

    /** The freezer check of the update callback: a head block that underflows the limit becomes the target. */
    method AdjustTarget(frozen: nat -> nat, headBlock: nat, headTime: nat, forced: bool, ghost goal: Header,
                        ghost oldHead: Header, ghost oldBlock: Header, ghost oldStates: set<Root>, ghost root: Root,
                        ghost head: nat, ghost time: nat)
      returns (headBlock': nat, headTime': nat, forced': bool, ghost goal': Header)
      requires currentBlock.number <= hc.currentHeader.number
      requires OnceChosen(db.headers, oldHead, oldStates, oldBlock, root, currentBlock)
      requires !forced ==> headBlock == head && headTime == time
      requires forced ==> Forced(oldHead, oldBlock, oldStates, root, head, time, frozen, headBlock, headTime, goal)
      ensures Going(oldHead, oldBlock, oldStates, root, head, time, frozen, headBlock', headTime', forced', goal')
      ensures !forced' ==> !forced
    {
      headBlock', headTime', forced', goal' := headBlock, headTime, forced, goal;
      if Underflown(currentBlock, frozen(hc.currentHeader.number)) {
        if (headTime > 0 && currentBlock.time < headTime) || (headTime == 0 && currentBlock.number < headBlock) {
          headBlock', headTime', forced', goal' := currentBlock.number, 0, true, currentBlock;
        }
      }
    }

    /** The headers of the path to the old head header that have been left do not meet a target. */
    ghost predicate NoneLeft(oldHead: Header, head: nat, time: nat)
      reads hc, db
      requires Closed(db.headers, genesisBlock) && Stored(db.headers, oldHead)
    {
      NonePassed(db.headers, PathTo(db.headers, genesisBlock, oldHead), hc.currentHeader.number, oldHead.number, head,
                 time)
    }

    /** A step back, with how the head block has been chosen. */
    method StepChosen(root: Root, rootNumber: nat, batch: Batch, origin: bool, ghost oldHead: Header,
                      ghost oldBlock: Header, ghost oldStates: set<Root>)
      returns (rootNumber': nat, batch': Batch, crit: bool)
      requires Wired() && hc.Rewinding(oldHead, batch, origin) && MarkersOk() && hc.currentHeader.number > 0
      requires currentBlock.number <= oldBlock.number && (!pathScheme ==> states == oldStates)
      requires if origin then currentBlock == oldBlock && states == oldStates
               else Chosen(db.headers, oldHead, oldStates, oldBlock, root, hc.currentHeader, currentBlock, states)
      modifies this`currentBlock, this`currentSnapBlock, this`states, hc, db`headHeader, db`headBlock, db`headFast
      ensures !crit && hc.Rewinding(oldHead, batch', false) && MarkersOk()
      ensures hc.currentHeader == Parent(db.headers, genesisBlock, old(hc.currentHeader))
      ensures currentBlock.number <= old(currentBlock).number && (!pathScheme ==> states == oldStates)
      ensures currentSnapBlock == if hc.currentHeader.number < old(currentSnapBlock).number then hc.currentHeader
                                  else old(currentSnapBlock)
      ensures Chosen(db.headers, oldHead, oldStates, oldBlock, root, hc.currentHeader, currentBlock, states)
      ensures OnceChosen(db.headers, oldHead, oldStates, oldBlock, root, currentBlock)
      ensures currentBlock.number <= hc.currentHeader.number
    {
      ghost var hdr, block, sts := hc.currentHeader, currentBlock, states;
      rootNumber', batch', crit := RewindStep(root, rootNumber, batch, origin, oldHead);
      ChosenNext(db.headers, oldHead, oldStates, oldBlock, root, origin, hdr, block, sts, hc.currentHeader,
                 currentBlock, states);
      ChosenOnPath(db.headers, oldHead, oldStates, oldBlock, root, hc.currentHeader, currentBlock, states);
    }

    /** A step back from a header that does not meet the target asked for, if the rewind is still going there. */
    method StepPassed(root: Root, rootNumber: nat, batch: Batch, origin: bool, ghost oldHead: Header,
                      ghost oldBlock: Header, ghost oldStates: set<Root>, ghost head: nat, ghost time: nat,
                      ghost going: bool)
      returns (rootNumber': nat, batch': Batch, crit: bool)
      requires Wired() && hc.Rewinding(oldHead, batch, origin) && MarkersOk() && hc.currentHeader.number > 0
      requires currentBlock.number <= oldBlock.number && (!pathScheme ==> states == oldStates)
      requires if origin then currentBlock == oldBlock && states == oldStates
               else Chosen(db.headers, oldHead, oldStates, oldBlock, root, hc.currentHeader, currentBlock, states)
      requires going ==> NoneLeft(oldHead, head, time) && !Done(hc.currentHeader, head, time)
      modifies this`currentBlock, this`currentSnapBlock, this`states, hc, db`headHeader, db`headBlock, db`headFast
      ensures !crit && hc.Rewinding(oldHead, batch', false) && MarkersOk()
      ensures hc.currentHeader == Parent(db.headers, genesisBlock, old(hc.currentHeader))
      ensures currentBlock.number <= old(currentBlock).number && (!pathScheme ==> states == oldStates)
      ensures currentSnapBlock == if hc.currentHeader.number < old(currentSnapBlock).number then hc.currentHeader
                                  else old(currentSnapBlock)
      ensures Chosen(db.headers, oldHead, oldStates, oldBlock, root, hc.currentHeader, currentBlock, states)
      ensures OnceChosen(db.headers, oldHead, oldStates, oldBlock, root, currentBlock)
      ensures currentBlock.number <= hc.currentHeader.number
      ensures going ==> NoneLeft(oldHead, head, time)
    {
      ghost var hdr := hc.currentHeader;
      rootNumber', batch', crit := StepChosen(root, rootNumber, batch, origin, oldHead, oldBlock, oldStates);
      if going {
        PassedOne(db.headers, PathTo(db.headers, genesisBlock, oldHead), oldHead.number, hdr, head, time);
      }
    }

    /** One iteration of the rewinding loop: a step back, then the freezer check. */
    method RewindNext(root: Root, rootNumber: nat, batch: Batch, origin: bool, frozen: nat -> nat,
                      headBlock: nat, headTime: nat, forced: bool, ghost goal: Header, ghost oldHead: Header,
                      ghost oldBlock: Header, ghost oldStates: set<Root>, ghost head: nat, ghost time: nat)
      returns (rootNumber': nat, batch': Batch, crit: bool, headBlock': nat, headTime': nat, forced': bool,
               ghost goal': Header)
      requires Progress(oldHead, oldBlock, oldStates, root, head, time, frozen, batch, origin, headBlock, headTime,
                        forced, goal)
      requires hc.currentHeader.number > 0 && !Done(hc.currentHeader, headBlock, headTime)
      modifies this`currentBlock, this`currentSnapBlock, this`states, hc, db`headHeader, db`headBlock, db`headFast
      ensures !crit
      ensures Progress(oldHead, oldBlock, oldStates, root, head, time, frozen, batch', false, headBlock', headTime',
                       forced', goal')
      ensures hc.currentHeader == Parent(db.headers, genesisBlock, old(hc.currentHeader))
      ensures currentSnapBlock == if hc.currentHeader.number < old(currentSnapBlock).number then hc.currentHeader
                                  else old(currentSnapBlock)
      ensures !forced' && (!forced ==> old(NoneLeft(oldHead, head, time))) ==> NoneLeft(oldHead, head, time)
    {
      ghost var going := !forced && NoneLeft(oldHead, head, time);
      rootNumber', batch', crit :=
        StepPassed(root, rootNumber, batch, origin, oldHead, oldBlock, oldStates, head, time, going);
      headBlock', headTime', forced', goal' :=
        AdjustTarget(frozen, headBlock, headTime, forced, goal, oldHead, oldBlock, oldStates, root, head, time);
    }

    /** Steps back until the target is reached. No header passed on the way met the target asked for. */
    method RewindLoop(root: Root, frozen: nat -> nat, head: nat, time: nat)
      returns (rootNumber: nat, batch: Batch, origin: bool, crit: bool, headBlock: nat, headTime: nat, forced: bool,
               ghost goal: Header)
      requires Usable() && (time > 0 ==> genesisBlock.time <= time)
      modifies this`currentBlock, this`currentSnapBlock, this`states, hc, db`headHeader, db`headBlock, db`headFast
      ensures !crit
      ensures Progress(old(hc.currentHeader), old(currentBlock), old(states), root, head, time, frozen, batch, origin,
                       headBlock, headTime, forced, goal)
      ensures Done(hc.currentHeader, headBlock, headTime)
      ensures !forced ==> NoneLeft(old(hc.currentHeader), head, time)
      ensures currentSnapBlock == if !origin && hc.currentHeader.number < old(currentSnapBlock).number
              then hc.currentHeader
                                  else old(currentSnapBlock)
    {
      rootNumber, crit, forced := 0, false, false;
      ghost var oldHead := hc.currentHeader;
      ParentOnPath(db.headers, genesisBlock, oldHead);
      headBlock, headTime, batch, origin, goal := head, time, EMPTY_BATCH, true, currentBlock;
      while !Done(hc.currentHeader, headBlock, headTime)
        invariant Progress(oldHead, old(currentBlock), old(states), root, head, time, frozen, batch, origin, headBlock,
                           headTime, forced, goal)
        invariant !crit
        invariant currentSnapBlock == if !origin && hc.currentHeader.number < old(currentSnapBlock).number
                  then hc.currentHeader
                                      else old(currentSnapBlock)
        invariant !forced ==> NoneLeft(oldHead, head, time)
        decreases hc.currentHeader.number
      {
        assert ClosedAt(db.headers, genesisBlock, hc.currentHeader.hash);
        rootNumber, batch, crit, headBlock, headTime, forced, goal :=
          RewindNext(root, rootNumber, batch, origin, frozen, headBlock, headTime, forced, goal, oldHead,
                     old(currentBlock), old(states), head, time);
        origin := false;
      }
    }

    /** Flushes the deletions; the markers stay where they are. */
    method Finish(batch: Batch, origin: bool, ghost oldHead: Header)
      requires Wired() && hc.Rewinding(oldHead, batch, origin) && MarkersOk()
      requires !origin ==>
                 currentBlock.number <= hc.currentHeader.number && currentSnapBlock.number <= hc.currentHeader.number
      modifies db
      ensures Usable()
      ensures !origin ==> (IndexExact(hc.currentHeader) <==>
                             PathUpTo(old(db.headers), old(db.canon), hc.currentHeader.number)
                             && old(db.canon)[hc.currentHeader.number] == hc.currentHeader.hash)
      ensures db.canon == if origin then old(db.canon) else IndexUpTo(old(db.canon), hc.currentHeader.number)
      ensures db.headers == if origin then old(db.headers) else UpToNumber(old(db.headers), hc.currentHeader.number)
      ensures old(OnChain(currentBlock)) ==> OnChain(currentBlock)
      ensures db.txs == old(db.txs) && (old(LookupComplete()) ==> LookupComplete())
    {
      ghost var hs := db.headers;
      hc.FinishRewind(batch, origin, oldHead);
      SamePath(hs, db.headers, genesisBlock, hc.currentHeader);
      SamePath(hs, db.headers, genesisBlock, currentBlock);
      FewerHeaders(hs, db.headers, PathTo(hs, genesisBlock, currentBlock), db.txs, currentBlock.number);
    }

    /** Fewer stored headers leave fewer transactions on a path. */
    static lemma FewerHeaders(hs: HeaderStore, hs': HeaderStore, path: CanonIndex, txs: TxIndex, top: nat)
      requires forall k | k in hs' :: k in hs && hs[k] == hs'[k]
      ensures TxComplete(hs, path, txs, top) ==> TxComplete(hs', path, txs, top)
    {
      forall t, n: nat | OnPath(hs', path, t, n) ensures OnPath(hs, path, t, n) {
      }
    }

    /** A complete lookup is complete for every lower block of the same chain. */
    lemma LowerComplete(oldBlock: Header)
      requires OnPathOf(db.headers, genesisBlock, oldBlock, currentBlock)
      requires TxComplete(db.headers, PathTo(db.headers, genesisBlock, oldBlock), db.txs, oldBlock.number)
      ensures LookupComplete()
    {
      PathPrefix(db.headers, genesisBlock, oldBlock, currentBlock);
      IndexSamePath(db.headers, PathTo(db.headers, genesisBlock, oldBlock),
                    PathTo(db.headers, genesisBlock, currentBlock), db.txs, currentBlock.number);
    }

    /** Where a rewind stops: on the path to the old head header, at the first header that meets the target asked for,
      or, when forced on, at the number of goal, a block that was head block meanwhile and underflowed the freezer, and
      that is below the target, or below a block of that kind which is.
      Then the head block does not underflow it, unless the rewind has come down to the head block or met the time
      asked for. */
    ghost predicate Stopped(hs: HeaderStore, oldHead: Header, oldBlock: Header, oldStates: set<Root>, root: Root,
                            head: nat, time: nat, frozen: nat -> nat, forced: bool, goal: Header)
      reads this, hc
    {
      && OnPathOf(hs, genesisBlock, oldHead, hc.currentHeader)
      && (Done(oldHead, head, time) <==> hc.currentHeader == oldHead)
      && (time == 0 || !forced ==> Done(hc.currentHeader, head, time))
      && (!forced ==> NonePassed(hs, PathTo(hs, genesisBlock, oldHead), hc.currentHeader.number, oldHead.number, head,
                                 time))
      && (forced ==>
            && goal.number == hc.currentHeader.number
            && (exists n: nat :: goal.number + 1 < frozen(n)) && (pivot.None? || goal.number >= pivot.value)
            && BelowTarget(hs, oldHead, oldStates, oldBlock, root, head, time, goal.number)
            && OnceChosen(hs, oldHead, oldStates, oldBlock, root, goal)
            && (OnPathOf(hs, genesisBlock, oldHead, goal) ==> goal == hc.currentHeader))
      && (hc.currentHeader != oldHead
          && currentBlock.number + 1 < frozen(hc.currentHeader.number)
          && (pivot.None? || currentBlock.number >= pivot.value) ==>
            currentBlock == hc.currentHeader || (!forced && time > 0 && currentBlock.time >= time))
    }

    /** What the state of the loop says once the target has been reached. */
    lemma AtEnd(oldHead: Header, oldBlock: Header, oldStates: set<Root>, root: Root, head: nat, time: nat,
                frozen: nat -> nat, batch: Batch, origin: bool, headBlock: nat, headTime: nat, forced: bool,
                goal: Header)
      requires Progress(oldHead, oldBlock, oldStates, root, head, time, frozen, batch, origin, headBlock, headTime,
                        forced, goal)
      requires Done(hc.currentHeader, headBlock, headTime) && (!forced ==> NoneLeft(oldHead, head, time))
      ensures origin <==> Done(oldHead, head, time)
      ensures Stopped(db.headers, oldHead, oldBlock, oldStates, root, head, time, frozen, forced, goal)
    {
      if !origin {
        ChosenOnPath(db.headers, oldHead, oldStates, oldBlock, root, hc.currentHeader, currentBlock, states);
      }
    }

    /** The end of a rewind: what was true of index, head block and lookup before is true of what is left. */
    method Conclude(batch: Batch, origin: bool, ghost oldHead: Header, ghost oldBlock: Header,
                    ghost oldStates: set<Root>, ghost root: Root, ghost hs: HeaderStore, ghost canon: CanonIndex,
                    ghost headed: bool, ghost complete: bool)
      requires Wired() && hc.Rewinding(oldHead, batch, origin) && MarkersOk()
      requires db.headers == hs && db.canon == canon && Stored(hs, oldBlock)
      requires headed ==> Gapless(canon) && PathUpTo(hs, canon, oldHead.number) && canon[oldHead.number] == oldHead.hash
      requires complete ==> OnPathOf(hs, genesisBlock, oldHead, oldBlock)
                            && TxComplete(hs, PathTo(hs, genesisBlock, oldBlock), db.txs, oldBlock.number)
      requires !origin ==> currentSnapBlock.number <= hc.currentHeader.number
      requires if origin then currentBlock == oldBlock
               else Chosen(hs, oldHead, oldStates, oldBlock, root, hc.currentHeader, currentBlock, states)
      modifies db
      ensures Usable() && db.txs == old(db.txs)
      ensures db.canon == if origin then canon else IndexUpTo(canon, hc.currentHeader.number)
      ensures db.headers == if origin then hs else UpToNumber(hs, hc.currentHeader.number)
      ensures !origin ==> (IndexExact(hc.currentHeader) <==>
                             PathUpTo(hs, canon, hc.currentHeader.number)
                             && canon[hc.currentHeader.number] == hc.currentHeader.hash)
      ensures headed ==> hc.Headed() && (!origin ==> IndexExact(hc.currentHeader))
      ensures OnPathOf(hs, genesisBlock, oldHead, oldBlock) ==> OnChain(currentBlock)
      ensures complete ==> LookupComplete()
    {
      if !origin {
        ChosenOnPath(hs, oldHead, oldStates, oldBlock, root, hc.currentHeader, currentBlock, states);
      }
      hc.LinkedBelow(oldHead);
      if complete {
        OnOwnPath(hs, oldHead, oldBlock);
        LowerComplete(oldBlock);
      }
      Finish(batch, origin, oldHead);
      hc.HeadedConsistent();
      hc.ValidHeaded();
    }

    /** Steps back until the target is reached, and says what has been reached; nothing is deleted yet. */
    method Reach(root: Root, frozen: nat -> nat, head: nat, time: nat)
      returns (rootNumber: nat, batch: Batch, origin: bool, crit: bool, forced: bool, ghost goal: Header)
      requires Usable() && (time > 0 ==> genesisBlock.time <= time)
      modifies this`currentBlock, this`currentSnapBlock, this`states, hc, db`headHeader, db`headBlock, db`headFast
      ensures !crit && Wired() && hc.Rewinding(old(hc.currentHeader), batch, origin) && MarkersOk()
      ensures origin <==> Done(old(hc.currentHeader), head, time)
      ensures origin ==> hc.currentHeader == old(hc.currentHeader) && currentBlock == old(currentBlock)
      ensures old(Stateful()) ==> Stateful()
      ensures !origin ==>
                && hc.currentHeader.number < old(hc.currentHeader).number
                && Chosen(db.headers, old(hc.currentHeader), old(states), old(currentBlock), root, hc.currentHeader,
                          currentBlock, states)
      ensures currentSnapBlock == if !origin && hc.currentHeader.number < old(currentSnapBlock).number
              then hc.currentHeader
                                  else old(currentSnapBlock)
      ensures Stopped(db.headers, old(hc.currentHeader), old(currentBlock), old(states), root, head, time, frozen,
                      forced, goal)
      ensures !forced ==> StoppedAt(db.headers, old(hc.currentHeader), hc.currentHeader, head, time)
    {
      var headBlock, headTime;
      rootNumber, batch, origin, crit, headBlock, headTime, forced, goal := RewindLoop(root, frozen, head, time);
      AtEnd(old(hc.currentHeader), old(currentBlock), old(states), root, head, time, frozen, batch, origin, headBlock,
            headTime, forced, goal);
    }

    /** By time when one is given, else by number: the header meets the target, and no header above it did. */
    ghost predicate StoppedAt(hs: HeaderStore, oldHead: Header, h: Header, head: nat, time: nat)
      requires Closed(hs, genesisBlock) && Stored(hs, oldHead)
    {
      && (time > 0 ==>
            h.time <= time && LaterThan(hs, PathTo(hs, genesisBlock, oldHead), h.number, oldHead.number, time))
      && (time == 0 ==>
            h.number <= head && HigherThan(hs, PathTo(hs, genesisBlock, oldHead), h.number, oldHead.number, head))
    }

    /** A rewind that is not rejected. */
    method RewindAll(root: Root, frozen: nat -> nat, head: nat, time: nat, ghost headed: bool, ghost complete: bool)
      returns (rootNumber: nat, crit: bool, forced: bool, ghost goal: Header)
      requires Usable() && (time > 0 ==> genesisBlock.time <= time)
      requires headed ==> Gapless(db.canon) && PathUpTo(db.headers, db.canon, hc.currentHeader.number)
                          && db.canon[hc.currentHeader.number] == hc.currentHeader.hash
      requires complete ==> OnChain(currentBlock) && LookupComplete()
      modifies this`currentBlock, this`currentSnapBlock, this`states, hc, db
      ensures !crit && Usable() && db.txs == old(db.txs) && (old(Stateful()) ==> Stateful())
      ensures hc.currentHeader == old(hc.currentHeader) ==>
                && db.canon == old(db.canon) && db.headers == old(db.headers)
                && currentBlock == old(currentBlock) && currentSnapBlock == old(currentSnapBlock)
      ensures hc.currentHeader != old(hc.currentHeader) ==>
                && hc.currentHeader.number < old(hc.currentHeader).number
                && db.canon == IndexUpTo(old(db.canon), hc.currentHeader.number)
                && db.headers == UpToNumber(old(db.headers), hc.currentHeader.number)
                && (IndexExact(hc.currentHeader) <==>
                      PathUpTo(old(db.headers), old(db.canon), hc.currentHeader.number)
                      && old(db.canon)[hc.currentHeader.number] == hc.currentHeader.hash)
                && (headed ==> IndexExact(hc.currentHeader))
                && Chosen(old(db.headers), old(hc.currentHeader), old(states), old(currentBlock), root,
                          hc.currentHeader, currentBlock, states)
                && currentSnapBlock == (if hc.currentHeader.number < old(currentSnapBlock).number then hc.currentHeader
                                        else old(currentSnapBlock))
      ensures Stopped(old(db.headers), old(hc.currentHeader), old(currentBlock), old(states), root, head, time, frozen,
                      forced, goal)
      ensures !forced ==> StoppedAt(old(db.headers), old(hc.currentHeader), hc.currentHeader, head, time)
      ensures headed ==> hc.Headed()
      ensures old(OnChain(currentBlock)) ==> OnChain(currentBlock)
      ensures complete ==> LookupComplete()
    {
      ghost var hs, canon := db.headers, db.canon;
      var batch, origin;
      rootNumber, batch, origin, crit, forced, goal := Reach(root, frozen, head, time);
      Conclude(batch, origin, old(hc.currentHeader), old(currentBlock), old(states), root, hs, canon, headed, complete);
    }

    /** Rewinds headers, head block and snap block to a number or time. frozen gives the freezer limit read while the
      head header has a number; a head block below it makes the rewind go on to the number of that block, goal. */
    method SetHeadBeyondRoot(head: nat, time: nat, root: Root, frozen: nat -> nat)
      returns (rootNumber: nat, rejected: bool, crit: bool, forced: bool, ghost goal: Header)
      requires Usable()
      modifies this`currentBlock, this`currentSnapBlock, this`states, hc, db
      ensures !crit && Usable() && (old(Aligned()) ==> Aligned()) && (old(Stateful()) ==> Stateful())
      ensures rejected <==> time > 0 && genesisBlock.time > time
      ensures rejected ==> hc.currentHeader == old(hc.currentHeader) && rootNumber == 0 && !forced
      ensures hc.currentHeader == old(hc.currentHeader) ==>
                && db.canon == old(db.canon) && db.headers == old(db.headers)
                && currentBlock == old(currentBlock) && currentSnapBlock == old(currentSnapBlock)
      ensures hc.currentHeader != old(hc.currentHeader) ==>
                && hc.currentHeader.number < old(hc.currentHeader).number
                && db.canon == IndexUpTo(old(db.canon), hc.currentHeader.number)
                && db.headers == UpToNumber(old(db.headers), hc.currentHeader.number)
                && (IndexExact(hc.currentHeader) <==>
                      PathUpTo(old(db.headers), old(db.canon), hc.currentHeader.number)
                      && old(db.canon)[hc.currentHeader.number] == hc.currentHeader.hash)
                && (old(hc.Headed()) ==> IndexExact(hc.currentHeader))
                && Chosen(old(db.headers), old(hc.currentHeader), old(states), old(currentBlock), root,
                          hc.currentHeader, currentBlock, states)
                && currentSnapBlock == (if hc.currentHeader.number < old(currentSnapBlock).number then hc.currentHeader
                                        else old(currentSnapBlock))
      ensures !rejected ==>
                Stopped(old(db.headers), old(hc.currentHeader), old(currentBlock), old(states), root, head, time,
                        frozen, forced, goal)
      ensures !rejected && !forced ==>
                StoppedAt(old(db.headers), old(hc.currentHeader), hc.currentHeader, head, time)
      // Lookup entries stay where they are, so none is missing for the shorter path.
      ensures db.txs == old(db.txs) && (old(OnChain(currentBlock) && LookupComplete()) ==> LookupComplete())
    {
      ghost var headed, complete := hc.Headed(), OnChain(currentBlock) && LookupComplete();
      assert headed ==> Gapless(db.canon) && PathUpTo(db.headers, db.canon, hc.currentHeader.number)
                        && db.canon[hc.currentHeader.number] == hc.currentHeader.hash by {
        hc.HeadedConsistent();
      }
      rootNumber, crit, forced, goal := 0, false, false, currentBlock;
      if time > 0 && genesisBlock.time > time {
        return rootNumber, true, false, false, goal;
      }
      rejected := false;
      rootNumber, crit, forced, goal := RewindAll(root, frozen, head, time, headed, complete);
    }
  }
}
