/** Runs of the chain methods that leave index entries above the head, and what goes wrong afterwards. */
module LeftOvers {
  import opened Wrappers
  import opened Chain
  import opened HeaderChains
  import opened Rewind
  import opened BlockChains

  const GENESIS := Header(1, ZERO_HASH, 0, 100, 10, [])
  const FIRST := Header(2, 1, 1, 101, 11, [])
  const SECOND := Header(3, 2, 2, 102, 12, [])
  const THIRD := Header(4, 3, 3, 103, 13, [])
  const FOURTH := Header(5, 4, 4, 104, 14, [])
  const SIBLING := Header(6, 1, 1, 101, 15, [])
  const NEXT := Header(7, 4, 4, 105, 16, [])
  const FIFTH := Header(8, 5, 5, 106, 17, [])

  const STATES: set<Root> := {10, 14}
  const FOUR_HEADERS: HeaderStore := map[1 := GENESIS, 2 := FIRST, 3 := SECOND, 4 := THIRD, 5 := FOURTH]
  const FOUR_INDEX: CanonIndex := map[0 := 1, 1 := 2, 2 := 3, 3 := 4, 4 := 5]
  const THREE_HEADERS: HeaderStore := map[1 := GENESIS, 2 := FIRST, 3 := SECOND, 4 := THIRD]
  const THREE_INDEX: CanonIndex := map[0 := 1, 1 := 2, 2 := 3, 3 := 4]
  const SIBLING_INDEX: CanonIndex := map[0 := 1, 1 := 6, 2 := 3, 3 := 4]

  lemma CutToThird()
    ensures UpToNumber(FOUR_HEADERS, 3) == THREE_HEADERS && IndexUpTo(FOUR_INDEX, 3) == THREE_INDEX
  {
  }

  /** The path to the fourth block. */
  lemma FourPath()
    ensures Closed(FOUR_HEADERS, GENESIS) && PathTo(FOUR_HEADERS, GENESIS, FOURTH) == FOUR_INDEX
  {
    assert forall k | k in FOUR_HEADERS :: ClosedAt(FOUR_HEADERS, GENESIS, k);
    assert LinkedAt(FOUR_HEADERS, FOUR_INDEX, 0) && LinkedAt(FOUR_HEADERS, FOUR_INDEX, 1);
    assert LinkedAt(FOUR_HEADERS, FOUR_INDEX, 2) && LinkedAt(FOUR_HEADERS, FOUR_INDEX, 3);
    assert LinkedAt(FOUR_HEADERS, FOUR_INDEX, 4);
    CanonicalUnique(FOUR_HEADERS, FOUR_INDEX, PathTo(FOUR_HEADERS, GENESIS, FOURTH), FOURTH);
  }

  /** A rewind of the four blocks to number 3 stops at the third. */
  lemma StopsAtThird(h: Header)
    requires OnPathOf(FOUR_HEADERS, GENESIS, FOURTH, h) && Done(h, 3, 0)
    requires NonePassed(FOUR_HEADERS, PathTo(FOUR_HEADERS, GENESIS, FOURTH), h.number, 4, 3, 0)
    ensures h == THIRD
  {
    FourPath();
    assert FOUR_INDEX[3] == 4 && FOUR_HEADERS[4] == THIRD;
  }

  /** Searching for state back from THIRD, which has none itself, ends at genesis. */
  lemma SearchFrom(hs: HeaderStore, start: Header, block: Header)
    requires Closed(hs, GENESIS) && Stored(hs, FIRST) && Stored(hs, SECOND) && Stored(hs, THIRD) && Stored(hs, start)
    requires start == THIRD || start == FOURTH
    requires RewoundTo(hs, GENESIS, false, STATES, {}, None, start, EMPTY_ROOT, block)
    ensures block == if start == THIRD then GENESIS else FOURTH
  {
    assert Back(hs, start, 0) == Some(start);
    if start == THIRD {
      assert Back(hs, FIRST, 0) == Some(FIRST) && Back(hs, FIRST, 1) == Back(hs, GENESIS, 0) == Some(GENESIS);
      assert Back(hs, SECOND, 0) == Some(SECOND) && Back(hs, SECOND, 1) == Back(hs, FIRST, 0);
      assert Back(hs, SECOND, 2) == Back(hs, FIRST, 1);
      assert Back(hs, THIRD, 1) == Back(hs, SECOND, 0) && Back(hs, THIRD, 2) == Back(hs, SECOND, 1);
      assert Back(hs, THIRD, 3) == Back(hs, SECOND, 2);
    }
    var k: nat := if start == THIRD then 3 else 0;
    assert Goal(hs, false, STATES, {}, None, start, EMPTY_ROOT, k);
    RewoundFirst(hs, GENESIS, false, STATES, {}, None, start, EMPTY_ROOT, block, k);
  }

  /** A chain whose index is exactly the path to its head block, with the given headers and entries. */
  ghost predicate AtHead(bc: BlockChain, head: Header, headers: HeaderStore, canon: CanonIndex)
    reads bc, bc.hc, bc.db
  {
    && bc.Usable() && bc.Aligned() && bc.IndexExact(head) && bc.currentBlock == head && bc.currentSnapBlock == head
    && bc.db.headBlock == head.hash && bc.db.headFast == head.hash
    && bc.db.headers == headers && bc.db.canon == canon
    && bc.genesisBlock == GENESIS && !bc.pathScheme && bc.pivot == None && bc.states == STATES && bc.recoverable == {}
  }

  method Genesis() returns (bc: BlockChain)
    ensures fresh(bc) && fresh(bc.hc) && fresh(bc.db)
    ensures AtHead(bc, GENESIS, map[1 := GENESIS], map[0 := 1])
  {
    var db := new Database(map[1 := GENESIS], map[0 := 1], map[], 1, 1, 1);
    assert forall k | k in db.headers :: ClosedAt(db.headers, GENESIS, k);
    assert LinkedAt(db.headers, db.canon, 0);
    var hc := new HeaderChain(db, GENESIS);
    bc := new BlockChain(db, hc, GENESIS, false, None, STATES, {});
  }

  /** Imports a new block on the head block. */
  method Extend(bc: BlockChain, block: Header)
    requires bc.Usable() && block.parent == bc.currentBlock.hash && block.number == bc.currentBlock.number + 1
    requires block.hash != ZERO_HASH && block.hash !in bc.db.headers
    modifies bc`currentBlock, bc`currentSnapBlock, bc.hc, bc.db
    ensures bc.currentBlock == block && bc.currentSnapBlock == block
    ensures bc.hc.currentHeader == block && bc.db.headBlock == block.hash && bc.db.headFast == block.hash
    ensures bc.db.headers == old(bc.db.headers)[block.hash := block]
    ensures bc.db.canon == old(bc.db.canon)[block.number := block.hash]
    ensures bc.Usable()
    ensures old(Gapless(bc.db.canon)) ==> (Gapless(bc.db.canon) <==> old(bc.currentBlock.number in bc.db.canon))
    ensures old(bc.Aligned()) ==>
              bc.Aligned() && (bc.IndexExact(block) <==> block.number + 1 !in old(bc.db.canon))
  {
    assert GetHeader(bc.db.headers, block.parent, block.number - 1) == Some(bc.currentBlock);
    var e := bc.WriteBlockAndSetHead(block);
    ForkOfChild(bc.db.headers, bc.genesisBlock, old(bc.currentBlock), block);
  }

  /** Imports a child of the head of an exact chain. */
  method Import(bc: BlockChain, block: Header, ghost headers: HeaderStore, ghost canon: CanonIndex)
    requires AtHead(bc, bc.currentBlock, headers, canon)
    requires block.parent == bc.currentBlock.hash && block.number == bc.currentBlock.number + 1
    requires block.hash != ZERO_HASH && block.hash !in headers
    modifies bc`currentBlock, bc`currentSnapBlock, bc.hc, bc.db
    ensures AtHead(bc, block, headers[block.hash := block], canon[block.number := block.hash])
  {
    bc.hc.ValidHeaded();
    Extend(bc, block);
  }

  /** Inserts a new header; the head block stays where it is. */
  method InsertHeader(bc: BlockChain, h: Header)
    requires bc.Usable() && h.hash != ZERO_HASH && h.hash !in bc.db.headers
    requires GetHeader(bc.db.headers, h.parent, h.number - 1).Some?
    modifies bc.hc, bc.db
    ensures bc.Usable() && bc.hc.currentHeader == h
    ensures bc.db.headers == old(bc.db.headers)[h.hash := h] && Stored(bc.db.headers, h)
    ensures bc.db.canon == HeaderChain.Target(old(bc.db.canon), PathTo(bc.db.headers, bc.genesisBlock, h),
                                              old(bc.hc.currentHeader), [h])
  {
    StoredToo(bc.db.headers, h);
    HashNotCanonical(bc, h);
    var r := bc.hc.WriteHeadersAndSetHead([h]);
  }

  lemma HashNotCanonical(bc: BlockChain, h: Header)
    requires bc.Usable() && h.hash !in bc.db.headers
    ensures h.hash !in bc.db.canon.Values
  {
    forall n | n in bc.db.canon ensures bc.db.canon[n] != h.hash {
      assert NumberedAt(bc.db.headers, bc.db.canon, n);
    }
  }

  lemma StoredToo(hs: HeaderStore, h: Header)
    ensures WithHeaders(hs, [h]) == hs[h.hash := h]
  {
    assert [h][..0] == [];
  }

  method TwoBlocks() returns (bc: BlockChain)
    ensures fresh(bc) && fresh(bc.hc) && fresh(bc.db)
    ensures AtHead(bc, SECOND, map[1 := GENESIS, 2 := FIRST, 3 := SECOND], map[0 := 1, 1 := 2, 2 := 3])
  {
    bc := Genesis();
    Import(bc, FIRST, map[1 := GENESIS], map[0 := 1]);
    Import(bc, SECOND, map[1 := GENESIS, 2 := FIRST], map[0 := 1, 1 := 2]);
  }

  /** Imports four blocks on genesis. */
  method FourBlocks() returns (bc: BlockChain)
    ensures fresh(bc) && fresh(bc.hc) && fresh(bc.db)
    ensures AtHead(bc, FOURTH, FOUR_HEADERS, FOUR_INDEX)
  {
    bc := TwoBlocks();
    Import(bc, THIRD, map[1 := GENESIS, 2 := FIRST, 3 := SECOND], map[0 := 1, 1 := 2, 2 := 3]);
    Import(bc, FOURTH, THREE_HEADERS, THREE_INDEX);
  }

  /** Rewinds the four blocks to the third, whose state is gone: the head block falls back to genesis while the head
    header stays at number 3. */
  method RewindToThird(bc: BlockChain)
    requires AtHead(bc, FOURTH, FOUR_HEADERS, FOUR_INDEX)
    modifies bc, bc.hc, bc.db
    ensures bc.Usable() && bc.Aligned() && bc.IndexExact(THIRD) && bc.currentBlock == GENESIS
    ensures bc.db.headers == THREE_HEADERS && bc.db.canon == THREE_INDEX
  {
    var n, rejected, crit, forced, goal := bc.SetHeadBeyondRoot(3, 0, EMPTY_ROOT, _ => 0);
    StopsAtThird(bc.hc.currentHeader);
    CutToThird();
    SearchedFromThird(bc, bc.currentBlock);
  }

  /** Rewinds the four blocks by time: the last header not later than 102 is the second. */
  method RewindToTime() returns (bc: BlockChain)
    ensures fresh(bc) && fresh(bc.hc) && fresh(bc.db)
    ensures bc.Usable() && bc.IndexExact(SECOND)
    ensures bc.db.headers == map[1 := GENESIS, 2 := FIRST, 3 := SECOND] && bc.db.canon == map[0 := 1, 1 := 2, 2 := 3]
  {
    bc := FourBlocks();
    var n, rejected, crit, forced, goal := bc.SetHeadBeyondRoot(0, 102, EMPTY_ROOT, _ => 0);
    StopsAtSecond(bc.hc.currentHeader);
    CutToSecond();
  }

  lemma StopsAtSecond(h: Header)
    requires OnPathOf(FOUR_HEADERS, GENESIS, FOURTH, h) && h.time <= 102
    requires LaterThan(FOUR_HEADERS, PathTo(FOUR_HEADERS, GENESIS, FOURTH), h.number, 4, 102)
    ensures h == SECOND
  {
    FourPath();
    assert FOUR_INDEX[2] == 3 && FOUR_HEADERS[3] == SECOND;
  }

  lemma CutToSecond()
    ensures UpToNumber(FOUR_HEADERS, 2) == map[1 := GENESIS, 2 := FIRST, 3 := SECOND]
    ensures IndexUpTo(FOUR_INDEX, 2) == map[0 := 1, 1 := 2, 2 := 3]
  {
  }

  lemma SearchedFromThird(bc: BlockChain, block: Header)
    requires bc.genesisBlock == GENESIS && !bc.pathScheme && bc.pivot == None && bc.recoverable == {}
    requires bc.Chosen(FOUR_HEADERS, FOURTH, STATES, FOURTH, EMPTY_ROOT, THIRD, block, bc.states)
    ensures block == GENESIS
  {
    var start, before :| bc.Searched(FOUR_HEADERS, FOURTH, STATES, FOURTH, EMPTY_ROOT, start, before, block)
                         && 3 <= start.number && (start == THIRD || block.number < 3);
    assert forall k | k in FOUR_HEADERS :: ClosedAt(FOUR_HEADERS, GENESIS, k);
    SearchFrom(FOUR_HEADERS, start, block);
  }

  /** A run that ends with entries left over above the head: four blocks are imported and rewound to the third; then a
    sibling of the first block arrives. Its parent is the head block, so there is no reorg, and the numbers 2 and 3 keep
    their entries. */
  method SiblingAfterRewind() returns (bc: BlockChain)
    ensures fresh(bc) && fresh(bc.hc) && fresh(bc.db)
    ensures bc.Usable() && bc.Aligned() && bc.currentBlock == SIBLING && bc.hc.currentHeader == SIBLING
    ensures bc.genesisBlock == GENESIS
    ensures bc.db.headers == THREE_HEADERS[6 := SIBLING] && bc.db.canon == SIBLING_INDEX
    ensures bc.hc.Headed() && !bc.hc.Valid()
  {
    bc := FourBlocks();
    RewindToThird(bc);
    ImportSibling(bc);
  }

  method ImportSibling(bc: BlockChain)
    requires bc.Usable() && bc.Aligned() && bc.hc.currentHeader == THIRD && bc.currentBlock == GENESIS
    requires bc.genesisBlock == GENESIS
    requires bc.db.headers == THREE_HEADERS && bc.db.canon == THREE_INDEX
    modifies bc, bc.hc, bc.db
    ensures bc.Usable() && bc.Aligned() && bc.currentBlock == SIBLING && bc.hc.currentHeader == SIBLING
    ensures bc.db.headers == THREE_HEADERS[6 := SIBLING] && bc.db.canon == SIBLING_INDEX && !bc.hc.Valid()
  {
    assert 2 in bc.db.canon;
    Extend(bc, SIBLING);
  }

  /** A header inserted on a left-over entry: the backward walk stops there, and the entry at number 2 is not linked to
    the sibling at number 1. */
  method HeaderOnLeftOver() returns (bc: BlockChain)
    ensures bc.Usable() && bc.hc.currentHeader == NEXT && bc.currentBlock == SIBLING
    ensures bc.db.canon == SIBLING_INDEX[4 := 7] && !LinkedAt(bc.db.headers, bc.db.canon, 2) && !bc.hc.Headed()
  {
    bc := SiblingAfterRewind();
    InsertHeader(bc, NEXT);
    StopsOnLeftOver(bc.db.headers);
    bc.hc.HeadedConsistent();
  }

  lemma StopsOnLeftOver(hs: HeaderStore)
    requires hs == THREE_HEADERS[6 := SIBLING][7 := NEXT] && Closed(hs, GENESIS)
    ensures HeaderChain.Target(SIBLING_INDEX, PathTo(hs, GENESIS, NEXT), SIBLING, [NEXT]) == SIBLING_INDEX[4 := 7]
    ensures !LinkedAt(hs, SIBLING_INDEX[4 := 7], 2)
  {
    var path := map[0 := 1, 1 := 2, 2 := 3, 3 := 4, 4 := 7];
    assert LinkedAt(hs, path, 4) && LinkedAt(hs, path, 3) && LinkedAt(hs, path, 2) && LinkedAt(hs, path, 1);
    assert LinkedAt(hs, path, 0);
    CanonicalUnique(hs, path, PathTo(hs, GENESIS, NEXT), NEXT);
    assert !Agree(SIBLING_INDEX, path, 4) && Agree(SIBLING_INDEX, path, 3);
    assert LastAgreement(SIBLING_INDEX, path, 4) == LastAgreement(SIBLING_INDEX, path, 3) == 3;
    assert Rerouted(SIBLING_INDEX, path, 3, 4, Some(4)) == SIBLING_INDEX[4 := 7];
  }

  /** Four blocks are imported; then the header of a sibling of the first is inserted. */
  method CutBelowHead() returns (bc: BlockChain)
    ensures fresh(bc) && fresh(bc.hc) && fresh(bc.db)
    ensures bc.Usable() && bc.currentBlock == FOURTH && bc.db.canon == map[0 := 1, 1 := 6]
    ensures bc.db.headers == FOUR_HEADERS[6 := SIBLING]
  {
    bc := FourBlocks();
    InsertHeader(bc, SIBLING);
    CutBySibling(bc.db.headers);
  }

  /** A header inserted below the head block cuts the index; a block on the head block is then written beyond its end,
    and the numbers 2 to 4 have no entry. */
  method GapBelowHead() returns (bc: BlockChain)
    ensures bc.Usable() && bc.currentBlock == FIFTH && bc.hc.currentHeader == FIFTH
    ensures bc.db.canon == map[0 := 1, 1 := 6, 5 := 8] && !Gapless(bc.db.canon)
  {
    bc := CutBelowHead();
    assert EndsAt(bc.db.canon, 1);
    Extend(bc, FIFTH);
  }

  lemma CutBySibling(hs: HeaderStore)
    requires hs == FOUR_HEADERS[6 := SIBLING] && Closed(hs, GENESIS)
    ensures HeaderChain.Target(FOUR_INDEX, PathTo(hs, GENESIS, SIBLING), FOURTH, [SIBLING]) == map[0 := 1, 1 := 6]
  {
    var path := map[0 := 1, 1 := 6];
    assert LinkedAt(hs, path, 1) && LinkedAt(hs, path, 0);
    CanonicalUnique(hs, path, PathTo(hs, GENESIS, SIBLING), SIBLING);
    assert !Agree(FOUR_INDEX, path, 1) && Agree(FOUR_INDEX, path, 0);
    assert LastAgreement(FOUR_INDEX, path, 1) == LastAgreement(FOUR_INDEX, path, 0) == 0;
    assert Rerouted(FOUR_INDEX, path, 0, 1, Some(1)) == path;
  }

  /** A query above the head of the chain with entries left over: the index is read below number 3 and answers with the
    sibling, although two links lead to the first block. */
  method WrongAncestor() returns (bc: BlockChain, hash: Hash, number: nat)
    ensures bc.hc.Headed() && hash == SIBLING.hash && number == 1
    ensures WalkBack(bc.db.headers, THIRD.hash, 3, 2) == Some((FIRST.hash, 1))
  {
    bc := SiblingAfterRewind();
    bc.hc.HeadedConsistent();
    var left;
    hash, number, left := bc.hc.GetAncestor(THIRD.hash, 3, 2, 10);
    assert CanonicalAfter(bc.db.headers, bc.db.canon, THIRD.hash, 3, 0);
  }
}
