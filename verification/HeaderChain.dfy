/** The header chain: inserting headers, switching the canonical path, rewinding it, and looking up
  ancestors through the canonical index. */
module HeaderChains {
  import opened Wrappers
  import opened Chain

  datatype InsertError = UnknownAncestor | MissingParent

  /** Each header is the parent of the next. */
  ghost predicate Linked(headers: seq<Header>) {
    forall i | 0 < i < |headers| ::
      headers[i].parent == headers[i - 1].hash && headers[i].number == headers[i - 1].number + 1
  }

  ghost predicate AllStored(hs: HeaderStore, headers: seq<Header>) {
    forall h | h in headers :: Stored(hs, h)
  }

  /** No two headers among the stored and the new ones share a hash, and none hashes to zero. */
  ghost predicate NoCollision(hs: HeaderStore, headers: seq<Header>) {
    && (forall h | h in headers :: h.hash != ZERO_HASH && (h.hash in hs ==> hs[h.hash] == h))
    && (forall h, h' | h in headers && h' in headers && h.hash == h'.hash :: h == h')
  }

  /** All headers of the store and of a list. */
  ghost function WithHeaders(hs: HeaderStore, headers: seq<Header>): HeaderStore {
    if headers == [] then hs
    else var last := headers[|headers| - 1]; WithHeaders(hs, headers[..|headers| - 1])[last.hash := last]
  }

  lemma {:induction false} WithHeadersHas(hs: HeaderStore, headers: seq<Header>)
    requires NoCollision(hs, headers)
    ensures forall k :: k in WithHeaders(hs, headers) <==> k in hs || exists h :: h in headers && h.hash == k
    ensures forall k | k in hs :: WithHeaders(hs, headers)[k] == hs[k]
    ensures forall h | h in headers :: Stored(WithHeaders(hs, headers), h)
  {
    if headers != [] {
      var init, last := headers[..|headers| - 1], headers[|headers| - 1];
      assert headers == init + [last];
      WithHeadersHas(hs, init);
    }
  }

  /** Adding one header whose parent is stored keeps the store closed. */
  lemma AddHeaderClosed(hs: HeaderStore, genesis: Header, h: Header)
    requires Closed(hs, genesis) && h.hash != ZERO_HASH && (h.hash in hs ==> hs[h.hash] == h)
    requires GetHeader(hs, h.parent, h.number - 1).Some?
    ensures Closed(hs[h.hash := h], genesis)
  {
    var hs' := hs[h.hash := h];
    forall k | k in hs' ensures ClosedAt(hs', genesis, k) {
      if k != h.hash {
        assert ClosedAt(hs, genesis, k);
      }
    }
  }

  /** Adding a linked list of headers on a stored parent keeps the store closed. */
  lemma {:induction false} WithHeadersClosed(hs: HeaderStore, genesis: Header, headers: seq<Header>)
    requires Closed(hs, genesis) && Linked(headers) && NoCollision(hs, headers)
    requires headers != [] ==> GetHeader(hs, headers[0].parent, headers[0].number - 1).Some?
    ensures Closed(WithHeaders(hs, headers), genesis)
  {
    if headers != [] {
      var init, last := headers[..|headers| - 1], headers[|headers| - 1];
      assert last in headers && forall h | h in init :: h in headers;
      WithHeadersClosed(hs, genesis, init);
      var before := WithHeaders(hs, init);
      WithHeadersHas(hs, init);
      if init != [] {
        assert init[|init| - 1] in init;
        assert last.parent == init[|init| - 1].hash;
      }
      AddHeaderClosed(before, genesis, last);
    }
  }

  /** A linked list of stored headers lies on the path to its last header. */
  lemma {:induction false} ListOnPath(hs: HeaderStore, headers: seq<Header>, path: CanonIndex, i: nat)
    requires Linked(headers) && AllStored(hs, headers) && i < |headers|
    requires CanonicalTo(hs, path, headers[|headers| - 1])
    ensures headers[i].number in path && path[headers[i].number] == headers[i].hash
    ensures headers[i].number + |headers| - 1 - i == headers[|headers| - 1].number
    decreases |headers| - i
  {
    if i < |headers| - 1 {
      ListOnPath(hs, headers, path, i + 1);
      assert LinkedAt(hs, path, headers[i + 1].number);
      assert headers[i + 1] in headers;
    }
  }

  /** Once a header of the list is unknown, so are all later ones. */
  lemma KnownParent(hs: HeaderStore, genesis: Header, headers: seq<Header>, i: nat)
    requires Closed(hs, genesis) && Linked(headers) && NoCollision(hs, headers) && i < |headers|
    ensures headers[i].hash in hs ==> GetHeader(hs, headers[i].hash, headers[i].number) == Some(headers[i])
    ensures i > 0 && headers[i].hash in hs ==> headers[i - 1].hash in hs
  {
    assert headers[i] in headers;
    if headers[i].hash in hs {
      assert ClosedAt(hs, genesis, headers[i].hash);
    }
  }

  /** Collects the headers that are not stored yet; after the first unknown one, all are written. */
  method CollectUnknown(hs: HeaderStore, headers: seq<Header>, ghost genesis: Header)
    returns (batch: Batch, inserted: nat)
    requires Closed(hs, genesis) && Linked(headers) && NoCollision(hs, headers)
    ensures batch == EMPTY_BATCH.(headers := batch.headers)
    ensures Flush(hs, batch.headers) == WithHeaders(hs, headers)
    ensures inserted <= |headers|
    ensures forall i | 0 <= i < |headers| :: headers[i].hash in hs <==> i < |headers| - inserted
  {
    batch, inserted := EMPTY_BATCH, 0;
    var parentKnown := true;
    var i := 0;
    while i < |headers|
      invariant 0 <= i <= |headers|
      invariant batch == EMPTY_BATCH.(headers := batch.headers)
      invariant Flush(hs, batch.headers) == WithHeaders(hs, headers[..i])
      invariant inserted <= i && (parentKnown <==> inserted == 0)
      invariant forall j | 0 <= j < i :: headers[j].hash in hs <==> j < i - inserted
    {
      var header := headers[i];
      var hash := if i < |headers| - 1 then headers[i + 1].parent else header.hash;
      var alreadyKnown := parentKnown && GetHeader(hs, hash, header.number).Some?;
      KnownParent(hs, genesis, headers, i);
      WithOneMore(hs, headers, i);
      if !alreadyKnown {
        FlushPut(hs, batch.headers, header.hash, header);
        batch := WriteHeader(batch, header);
        inserted := inserted + 1;
      }
      parentKnown := alreadyKnown;
      i := i + 1;
    }
    assert headers[..i] == headers;
  }

  /** One more header of the list adds its entry, which changes nothing when it was stored before. */
  lemma WithOneMore(hs: HeaderStore, headers: seq<Header>, i: nat)
    requires NoCollision(hs, headers) && i < |headers|
    ensures WithHeaders(hs, headers[..i + 1]) == WithHeaders(hs, headers[..i])[headers[i].hash := headers[i]]
    ensures headers[i].hash in hs ==> WithHeaders(hs, headers[..i + 1]) == WithHeaders(hs, headers[..i])
  {
    assert headers[..i + 1][..i] == headers[..i];
    assert headers[i] in headers && forall h | h in headers[..i] :: h in headers;
    WithHeadersHas(hs, headers[..i]);
  }

  /** What walking k parent links one by one from (hash, number) returns; None when a header is missing. */
  function WalkBack(hs: HeaderStore, hash: Hash, number: nat, k: nat): (r: Option<(Hash, nat)>)
    requires k <= number
    decreases k
  {
    if k == 0 then Some((hash, number))
    else
      match GetHeader(hs, hash, number)
      case None => None
      case Some(h) => WalkBack(hs, h.parent, number - 1, k - 1)
  }

  /** From an entry of a linked path, walking back reads the path's lower entries. */
  lemma {:induction false} WalkBackOnPath(hs: HeaderStore, canon: CanonIndex, top: nat, number: nat, k: nat)
    requires PathUpTo(hs, canon, top) && k <= number <= top
    ensures WalkBack(hs, canon[number], number, k) == Some((canon[number - k], number - k))
    decreases k
  {
    assert LinkedAt(hs, canon, number);
    if k > 0 {
      WalkBackOnPath(hs, canon, top, number - 1, k - 1);
    }
  }

  /** Walking k links and then m more is walking k + m links. */
  lemma {:induction false} WalkBackCompose(hs: HeaderStore, hash: Hash, number: nat, k: nat, m: nat)
    requires k + m <= number
    ensures WalkBack(hs, hash, number, k).None? ==> WalkBack(hs, hash, number, k + m).None?
    ensures WalkBack(hs, hash, number, k).Some? ==>
              var (h, n) := WalkBack(hs, hash, number, k).value;
              n == number - k && WalkBack(hs, hash, number, k + m) == WalkBack(hs, h, n, m)
    decreases k
  {
    if k > 0 {
      match GetHeader(hs, hash, number)
      case None =>
      case Some(header) => WalkBackCompose(hs, header.parent, number - 1, k - 1, m);
    }
  }

  /** Whether walking k links from (hash, number) ends on the canonical index. */
  ghost predicate CanonicalAfter(hs: HeaderStore, canon: CanonIndex, hash: Hash, number: nat, k: nat) {
    && k <= number
    && WalkBack(hs, hash, number, k).Some?
    && number - k in canon
    && canon[number - k] == WalkBack(hs, hash, number, k).value.0
  }

  /** When GetAncestor finds the ancestor: the walk is short enough, or meets the canonical index soon enough. */
  ghost predicate AncestorFound(hs: HeaderStore, canon: CanonIndex, hash: Hash, number: nat, ancestor: nat, max: nat) {
    && ancestor <= number
    && (if ancestor <= 1 then WalkBack(hs, hash, number, ancestor).Some?
        else
          || (ancestor <= max && WalkBack(hs, hash, number, ancestor).Some?)
          || (exists k | 0 <= k <= max && k < ancestor :: CanonicalAfter(hs, canon, hash, number, k)))
  }

  // ----- Rewinding -----

  /** The hashes of all stored headers with a number, on the canonical chain or on side chains. */
  function AllHashes(hs: HeaderStore, n: nat): set<Hash> {
    set h | h in hs && hs[h].number == n
  }

  ghost function HashesFrom(hs: HeaderStore, n: nat): set<Hash> {
    set h | h in hs && hs[h].number >= n
  }

  /** In a closed store, a number without headers has none above it either. */
  lemma {:induction false} NoneAbove(hs: HeaderStore, genesis: Header, n: nat, k: Hash)
    requires Closed(hs, genesis) && AllHashes(hs, n) == {} && k in hs
    ensures hs[k].number < n
    decreases hs[k].number
  {
    assert ClosedAt(hs, genesis, k);
    assert hs[k].number == n ==> k in AllHashes(hs, n);
    if hs[k].number > n {
      NoneAbove(hs, genesis, n, hs[k].parent);
    }
  }

  /** The numbers above num that still have headers, highest first. */
  method LeftoverNumbers(hs: HeaderStore, num: nat, ghost genesis: Header) returns (nums: seq<nat>)
    requires Closed(hs, genesis)
    ensures forall n: nat :: n in nums <==> n > num && AllHashes(hs, n) != {}
  {
    nums := [];
    var n := num + 1;
    while AllHashes(hs, n) != {}
      invariant n > num
      invariant forall m: nat :: m in nums <==> num < m < n
      invariant forall m: nat | num < m < n :: AllHashes(hs, m) != {}
      decreases HashesFrom(hs, n)
    {
      nums := [n] + nums;
      ghost var h :| h in AllHashes(hs, n);
      assert h in HashesFrom(hs, n) && h !in HashesFrom(hs, n + 1);
      n := n + 1;
    }
    forall m: nat | AllHashes(hs, m) != {} ensures m < n {
      var h :| h in AllHashes(hs, m);
      NoneAbove(hs, genesis, n, h);
    }
  }

  /** Adds the deletion of every header of a number and of its index entry. */
  method DeleteNumber(hs: HeaderStore, canon: CanonIndex, num: nat, b: Batch) returns (r: Batch)
    ensures r == b.(headers := r.headers, canon := r.canon)
    ensures forall k :: After(hs, r.headers, k) == if k in hs && hs[k].number == num then None
            else After(hs, b.headers, k)
    ensures forall n: nat :: After(canon, r.canon, n) == if n == num then None else After(canon, b.canon, n)
  {
    r := b.(headers := b.headers + (map h | h in AllHashes(hs, num) :: None));
    assert forall k | k !in AllHashes(hs, num) :: After(hs, r.headers, k) == After(hs, b.headers, k);
    r := DeleteCanonicalHash(r, num);
  }

  /** Adds the deletion of every header and index entry with one of the given numbers. */
  method DeleteNumbers(hs: HeaderStore, canon: CanonIndex, nums: seq<nat>, b: Batch) returns (r: Batch)
    ensures r == b.(headers := r.headers, canon := r.canon)
    ensures forall k | k in hs ::
              After(hs, r.headers, k) == if hs[k].number in nums then None else After(hs, b.headers, k)
    ensures forall k | k !in hs :: After(hs, r.headers, k) == After(hs, b.headers, k)
    ensures forall n: nat :: After(canon, r.canon, n) == if n in nums then None else After(canon, b.canon, n)
  {
    r := b;
    var i := 0;
    while i < |nums|
      invariant 0 <= i <= |nums|
      invariant r == b.(headers := r.headers, canon := r.canon)
      invariant forall k | k in hs ::
        After(hs, r.headers, k) == if hs[k].number in nums[..i] then None else After(hs, b.headers, k)
      invariant forall k | k !in hs :: After(hs, r.headers, k) == After(hs, b.headers, k)
      invariant forall n: nat :: After(canon, r.canon, n) == if n in nums[..i] then None else After(canon, b.canon, n)
    {
      assert nums[..i + 1] == nums[..i] + [nums[i]];
      r := DeleteNumber(hs, canon, nums[i], r);
      i := i + 1;
    }
    assert nums[..i] == nums;
  }

  /** Whether a rewind to a block number, or to a time when that is set, stops at a header. */
  predicate Done(h: Header, headBlock: nat, headTime: nat) {
    if headTime > 0 then h.time <= headTime else h.number <= headBlock
  }

  /** The headers numbered at most n. */
  ghost function UpToNumber(hs: HeaderStore, n: nat): HeaderStore {
    map k | k in hs && hs[k].number <= n :: hs[k]
  }

  /** The index entries numbered at most n. */
  ghost function IndexUpTo(canon: CanonIndex, n: nat): CanonIndex {
    map k | k in canon && k <= n :: canon[k]
  }

  /** Cutting a closed store and its index at a header leaves exactly the path to that header, whatever was above, if
    and only if the index was linked up to it. */
  lemma CutChain(hs: HeaderStore, genesis: Header, canon: CanonIndex, cut: Header)
    requires Closed(hs, genesis) && Numbered(hs, canon) && Stored(hs, cut)
    ensures Closed(UpToNumber(hs, cut.number), genesis)
    ensures Numbered(UpToNumber(hs, cut.number), IndexUpTo(canon, cut.number))
    ensures CanonicalTo(UpToNumber(hs, cut.number), IndexUpTo(canon, cut.number), cut) <==>
            PathUpTo(hs, canon, cut.number) && canon[cut.number] == cut.hash
  {
    var hs', canon' := UpToNumber(hs, cut.number), IndexUpTo(canon, cut.number);
    forall k | k in hs' ensures ClosedAt(hs', genesis, k) {
      assert ClosedAt(hs, genesis, k);
    }
    forall n: nat | n in canon' ensures NumberedAt(hs', canon', n) {
      assert NumberedAt(hs, canon, n);
    }
    CutPath(hs, canon, cut.number);
  }

  /** Cutting above a number leaves a path up to there if and only if it was one. */
  lemma CutPath(hs: HeaderStore, canon: CanonIndex, top: nat)
    ensures PathUpTo(UpToNumber(hs, top), IndexUpTo(canon, top), top) <==> PathUpTo(hs, canon, top)
  {
    var hs', canon' := UpToNumber(hs, top), IndexUpTo(canon, top);
    if PathUpTo(hs, canon, top) {
      forall n: nat | n <= top ensures LinkedAt(hs', canon', n) {
        assert LinkedAt(hs, canon, n);
      }
    }
    if PathUpTo(hs', canon', top) {
      forall n: nat | n <= top ensures n in canon && LinkedAt(hs, canon, n) {
        assert n in canon' && LinkedAt(hs', canon', n);
      }
    }
  }

  /** The headers of a path with lo < number <= hi do not meet a target. */
  ghost predicate NonePassed(hs: HeaderStore, path: CanonIndex, lo: nat, hi: nat, headBlock: nat, headTime: nat) {
    forall n: nat | lo < n <= hi :: n in path && path[n] in hs && !Done(hs[path[n]], headBlock, headTime)
  }

  /** The headers of a path with lo < number <= hi are later than a time. */
  ghost predicate LaterThan(hs: HeaderStore, path: CanonIndex, lo: nat, hi: nat, time: nat) {
    forall n: nat | lo < n <= hi :: n in path && path[n] in hs && hs[path[n]].time > time
  }

  /** The headers of a path with lo < number <= hi are higher than a number. */
  ghost predicate HigherThan(hs: HeaderStore, path: CanonIndex, lo: nat, hi: nat, number: nat) {
    forall n: nat | lo < n <= hi :: n in path && path[n] in hs && hs[path[n]].number > number
  }

  /** The header to be left joins those that do not meet the target. */
  lemma PassedOne(hs: HeaderStore, path: CanonIndex, hi: nat, hdr: Header, headBlock: nat, headTime: nat)
    requires Stored(hs, hdr) && hdr.number > 0 && hdr.number in path && path[hdr.number] == hdr.hash
    requires !Done(hdr, headBlock, headTime) && NonePassed(hs, path, hdr.number, hi, headBlock, headTime)
    ensures NonePassed(hs, path, hdr.number - 1, hi, headBlock, headTime)
  {
  }

  class HeaderChain {
    const db: Database
    const genesisHeader: Header
    var currentHeader: Header
    var currentHeaderHash: Hash

    /** The store is closed under parent and the index is exactly the path genesis..currentHeader. */
    ghost predicate Valid()
      reads this, db
    {
      && Closed(db.headers, genesisHeader)
      && CanonicalTo(db.headers, db.canon, currentHeader)
      && currentHeaderHash == currentHeader.hash
      && db.headHeader == currentHeaderHash
    }

    /** What every method keeps, whatever has happened: the store is closed under parent, the head is stored, and every
      entry of the index is a stored header of its number. */
    ghost predicate Consistent()
      reads this, db
    {
      && Closed(db.headers, genesisHeader)
      && Stored(db.headers, currentHeader)
      && Numbered(db.headers, db.canon)
      && currentHeaderHash == currentHeader.hash
      && db.headHeader == currentHeaderHash
    }

    /** The same, and the index has no gap and is linked up to the head, above which entries may be left over, as block
      imports after a rewind can leave them. */
    ghost predicate Headed()
      reads this, db
    {
      && Closed(db.headers, genesisHeader)
      && LinkedTo(db.headers, db.canon, currentHeader)
      && currentHeaderHash == currentHeader.hash
      && db.headHeader == currentHeaderHash
    }

    /** A chain is valid if and only if it is headed and has no entry after its head's. */
    lemma ValidHeaded()
      ensures Valid() <==> Headed() && currentHeader.number + 1 !in db.canon
    {
      if Valid() {
        CanonicalIsLinked(db.headers, db.canon, currentHeader, 0);
      }
      if Headed() {
        var top: nat :| LinkedUpTo(db.headers, db.canon, currentHeader, top);
        CanonicalIsLinked(db.headers, db.canon, currentHeader, top);
      }
    }

    lemma HeadedConsistent()
      ensures Headed() <==> Consistent() && Gapless(db.canon) && PathUpTo(db.headers, db.canon, currentHeader.number)
                            && db.canon[currentHeader.number] == currentHeader.hash
    {
      if Headed() {
        var top: nat :| LinkedUpTo(db.headers, db.canon, currentHeader, top);
      }
      if Consistent() && Gapless(db.canon) && PathUpTo(db.headers, db.canon, currentHeader.number)
         && db.canon[currentHeader.number] == currentHeader.hash {
        var top: nat :| EndsAt(db.canon, top);
        assert LinkedUpTo(db.headers, db.canon, currentHeader, top);
      }
    }

    /** Opens the chain on a store that holds only genesis. */
    constructor (db: Database, genesis: Header)
      requires Closed(db.headers, genesis) && CanonicalTo(db.headers, db.canon, genesis)
      requires db.headHeader == genesis.hash
      ensures this.db == db && genesisHeader == genesis && currentHeader == genesis && Valid()
    {
      this.db, genesisHeader, currentHeader, currentHeaderHash := db, genesis, genesis, genesis.hash;
    }

    /** Collects the writes that overwrite stale assignments, from first down to the highest number at which the old
      index agrees with the path; what is below is not looked at. */
    method OverwriteStale(first: Header, b: Batch, ghost path: CanonIndex) returns (r: Batch, missing: bool)
      requires Consistent() && Stored(db.headers, first)
      requires PathUpTo(db.headers, path, first.number) && path[first.number] == first.hash
      requires forall n | n in b.canon :: n > first.number
      ensures !missing
      ensures r == b.(canon := r.canon)
      ensures forall n: nat :: After(db.canon, r.canon, n) ==
                if LastAgreement(db.canon, path, first.number) < n <= first.number then Some(path[n])
                else After(db.canon, b.canon, n)
    {
      missing := false;
      r := b;
      GenesisAgrees(path, first.number);
      ghost var stop := LastAgreement(db.canon, path, first.number);
      var header, headNumber, headHash := first, first.number, first.hash;
      while ReadCanonicalHash(db.canon, headNumber) != headHash
        invariant Stored(db.headers, header) && header.number == headNumber <= first.number && stop <= headNumber
        invariant headHash == header.hash == path[headNumber]
        invariant r == b.(canon := r.canon)
        invariant forall n: nat | n <= headNumber :: n !in r.canon
        invariant forall n: nat | n > headNumber :: After(db.canon, r.canon, n) ==
                                                    if n <= first.number then Some(path[n])
                                                       else After(db.canon, b.canon, n)
        decreases headNumber
      {
        var r' := WriteCanonicalHash(r, headHash, headNumber);
        assert forall n: nat | n > headNumber :: After(db.canon, r'.canon, n) == After(db.canon, r.canon, n);
        r := r';
        assert LinkedAt(db.headers, path, headNumber) && ClosedAt(db.headers, genesisHeader, header.hash);
        if headNumber == 0 {
          assert false;
          break;
        }
        assert Stored(db.headers, Parent(db.headers, genesisHeader, header));
        var parent := GetHeader(db.headers, header.parent, header.number - 1);
        match parent {
          case None =>
            assert false;
            missing := true;
            return;
          case Some(p) =>
            header, headNumber, headHash := p, header.number - 1, header.parent;
        }
      }
      assert ClosedAt(db.headers, genesisHeader, header.hash);
      assert Agree(db.canon, path, headNumber);
    }

    /** Every index and every path start with genesis. */
    lemma GenesisAgrees(path: CanonIndex, top: nat)
      requires Consistent() && PathUpTo(db.headers, path, top)
      ensures Agree(db.canon, path, 0)
    {
      assert NumberedAt(db.headers, db.canon, 0) && ClosedAt(db.headers, genesisHeader, db.canon[0]);
      GenesisFirst(db.headers, genesisHeader, path, top);
    }

    /** Collects the assignments of a linked list of headers. */
    method ExtendWith(headers: seq<Header>, b: Batch, ghost canon: CanonIndex) returns (r: Batch)
      requires headers != [] && Linked(headers)
      ensures r == b.(canon := r.canon, headHeader := Some(headers[|headers| - 1].hash))
      ensures forall n: nat :: After(canon, r.canon, n) ==
                               if 0 <= n - headers[0].number < |headers|
                               then Some(headers[n - headers[0].number].hash) else After(canon, b.canon, n)
    {
      r := b;
      ghost var base := headers[0].number;
      var i := 0;
      while i < |headers| - 1
        invariant 0 <= i <= |headers| - 1
        invariant headers[i].number == base + i
        invariant r == b.(canon := r.canon, headHeader := r.headHeader)
        invariant forall n: nat :: After(canon, r.canon, n) ==
                                   if 0 <= n - base < i then Some(headers[n - base].hash) else After(canon, b.canon, n)
      {
        var hash := headers[i + 1].parent;
        var r' := WriteHeadHeaderHash(WriteCanonicalHash(r, hash, headers[i].number), hash);
        assert forall n: nat | n != base + i :: After(canon, r'.canon, n) == After(canon, r.canon, n);
        r := r';
        i := i + 1;
      }
      var last := headers[|headers| - 1];
      var r' := WriteHeadHeaderHash(WriteCanonicalHash(r, last.hash, last.number), last.hash);
      assert forall n: nat | n != base + i :: After(canon, r'.canon, n) == After(canon, r.canon, n);
      r := r';
    }

    /** Where a reorg to a list of headers leaves the old index as it is: at the head when the list extends it, else at
      the highest number at which the index agrees with the new path. */
    static ghost function Stop(canon: CanonIndex, path: CanonIndex, head: Header, first: Header): nat {
      if first.parent == head.hash then head.number else LastAgreement(canon, path, first.number)
    }

    /** A list that extends the head leaves what is above it; else a reorg deletes what is above the last header. */
    static ghost function Cut(head: Header, first: Header, last: Header): Option<nat> {
      if first.parent == head.hash then None else Some(last.number)
    }

    /** When a reorg to a list of headers leaves exactly their path: the old index followed it where it is left as it
      is, and nothing stays above: no entries above a list that extends the head, else none above a gap. */
    static ghost predicate Fits(hs: HeaderStore, canon: CanonIndex, path: CanonIndex, head: Header, first: Header,
                                last: Header)
    {
      && Follows(hs, canon, path, Stop(canon, path, head, first))
      && NothingAbove(canon, last.number, Cut(head, first, last))
    }

    /** The index is linked up to the head and is left as it is at or below the head. */
    static ghost predicate Short(headed: bool, canon: CanonIndex, path: CanonIndex, head: Header, first: Header) {
      headed && first.parent != head.hash && Stop(canon, path, head, first) <= head.number
    }

    /** Where the index is left as it is: just below a list that extends the head, else where it agrees with the
      path. */
    lemma StopAgrees(headers: seq<Header>, path: CanonIndex)
      requires Consistent() && headers != [] && Linked(headers) && AllStored(db.headers, headers)
      requires CanonicalTo(db.headers, path, headers[|headers| - 1])
      ensures headers[0].number + |headers| - 1 == headers[|headers| - 1].number
      ensures headers[0].number in path && path[headers[0].number] == headers[0].hash
      ensures PathUpTo(db.headers, path, headers[0].number)
      ensures var stop := Stop(db.canon, path, currentHeader, headers[0]);
              && stop <= headers[0].number
              && (if headers[0].parent == currentHeaderHash then stop + 1 == headers[0].number
                  else Agree(db.canon, path, stop))
    {
      var first := headers[0];
      assert first in headers;
      ListOnPath(db.headers, headers, path, 0);
      assert LinkedAt(db.headers, path, first.number);
      GenesisAgrees(path, first.number);
      assert ClosedAt(db.headers, genesisHeader, first.hash) && ClosedAt(db.headers, genesisHeader, currentHeader.hash);
    }

    /** The part of Reorg that decides what happens below and above the inserted headers. */
    method SwitchTo(headers: seq<Header>, ghost path: CanonIndex) returns (r: Batch, missing: bool)
      requires Consistent() && headers != [] && Linked(headers) && AllStored(db.headers, headers)
      requires CanonicalTo(db.headers, path, headers[|headers| - 1])
      ensures !missing
      ensures r == EMPTY_BATCH.(canon := r.canon)
      ensures var first, last := headers[0], headers[|headers| - 1];
              forall n: nat | !(first.number <= n <= last.number) :: After(db.canon, r.canon, n) ==
                At(Rerouted(db.canon, path, Stop(db.canon, path, currentHeader, first), last.number,
                            Cut(currentHeader, first, last)), n)
    {
      var first, last := headers[0], headers[|headers| - 1];
      assert first in headers && last in headers;
      StopAgrees(headers, path);
      r, missing := EMPTY_BATCH, false;
      if first.parent != currentHeaderHash {
        forall n: nat | n in db.canon ensures db.canon[n] != ZERO_HASH {
          assert NumberedAt(db.headers, db.canon, n) && ClosedAt(db.headers, genesisHeader, db.canon[n]);
        }
        r := DeleteCanonAbove(db.canon, last.number, r);
        r, missing := OverwriteStale(first, r, path);
      }
    }

    /** Makes the last of the given stored headers the head. The index takes the path's entries above where it is left
      as it is, and is exactly the path if and only if it fits. */
    method Reorg(headers: seq<Header>) returns (r: Option<InsertError>)
      requires Consistent() && Linked(headers) && AllStored(db.headers, headers)
      modifies this, db
      ensures r == None && Consistent() && (old(Valid()) ==> Valid())
      ensures db.headers == old(db.headers) && db.txs == old(db.txs)
      ensures db.headFast == old(db.headFast) && db.headBlock == old(db.headBlock)
      ensures headers == [] ==> currentHeader == old(currentHeader) && db.canon == old(db.canon)
      ensures headers != [] ==>
                var first, last, path := headers[0], headers[|headers| - 1],
                    PathTo(db.headers, genesisHeader, headers[|headers| - 1]);
                && currentHeader == last && At(db.canon, last.number) == Some(last.hash)
                && db.canon == Target(old(db.canon), path, old(currentHeader), headers)
                && (db.canon == path <==> Fits(db.headers, old(db.canon), path, old(currentHeader), first, last))
                && (Valid() <==> db.canon == path)
                && (Short(old(Headed()), old(db.canon), path, old(currentHeader), first) ==> db.canon == path)
    {
      if headers == [] {
        return None;
      }
      var last := headers[|headers| - 1];
      assert last in headers;
      ghost var path := PathTo(db.headers, genesisHeader, last);
      var batch, missing := Collect(headers, path);
      if missing {
        assert false;
        return Some(MissingParent);
      }
      Outcome(headers, path);
      FlushIs(db.canon, batch.canon, Target(db.canon, path, currentHeader, headers));
      db.Write(batch);
      FlushNothing(old(db.headers));
      FlushNothing(old(db.txs));
      currentHeaderHash := last.hash;
      currentHeader := last;
      return None;
    }

    /** The index a reorg to a list of headers leaves. */
    static ghost function Target(canon: CanonIndex, path: CanonIndex, head: Header, headers: seq<Header>): CanonIndex
      requires headers != []
    {
      var first, last := headers[0], headers[|headers| - 1];
      Rerouted(canon, path, Stop(canon, path, head, first), last.number, Cut(head, first, last))
    }

    /** The writes of a reorg. */
    method Collect(headers: seq<Header>, ghost path: CanonIndex) returns (full: Batch, missing: bool)
      requires Consistent() && headers != [] && Linked(headers) && AllStored(db.headers, headers)
      requires CanonicalTo(db.headers, path, headers[|headers| - 1])
      ensures !missing
      ensures full == EMPTY_BATCH.(canon := full.canon, headHeader := Some(headers[|headers| - 1].hash))
      ensures forall n: nat :: After(db.canon, full.canon, n) == At(Target(db.canon, path, currentHeader, headers), n)
    {
      StopAgrees(headers, path);
      full, missing := SwitchTo(headers, path);
      ghost var before := full.canon;
      full := ExtendWith(headers, full, db.canon);
      ListReachesPath(headers, path, db.canon, before, full.canon, Target(db.canon, path, currentHeader, headers));
    }

    /** What the index left by a reorg is. */
    lemma Outcome(headers: seq<Header>, path: CanonIndex)
      requires Consistent() && headers != [] && Linked(headers) && AllStored(db.headers, headers)
      requires CanonicalTo(db.headers, path, headers[|headers| - 1])
      ensures var first, last, r := headers[0], headers[|headers| - 1], Target(db.canon, path, currentHeader, headers);
              && (r == path <==> Fits(db.headers, db.canon, path, currentHeader, first, last))
              && (r == path <==> CanonicalTo(db.headers, r, last))
              && Numbered(db.headers, r) && At(r, last.number) == Some(last.hash)
              && (Valid() || Short(Headed(), db.canon, path, currentHeader, first) ==> r == path)
    {
      var first, last := headers[0], headers[|headers| - 1];
      var stop, cut := Stop(db.canon, path, currentHeader, first), Cut(currentHeader, first, last);
      StopAgrees(headers, path);
      ReroutedExact(db.headers, db.canon, path, last, stop, cut);
      assert first in headers && LinkedAt(db.headers, path, first.number);
      ValidFits(path, first, last);
    }

    /** An exact index fits every list; a linked one fits when it is left as it is at or below its head. */
    lemma ValidFits(path: CanonIndex, first: Header, last: Header)
      requires PathUpTo(db.headers, path, first.number) && first.number <= last.number
      ensures Valid() && (first.parent == currentHeader.hash ==>
                            first.number == currentHeader.number + 1 && Agree(db.canon, path, currentHeader.number)) ==>
                Fits(db.headers, db.canon, path, currentHeader, first, last)
      ensures Short(Headed(), db.canon, path, currentHeader, first) ==>
                Fits(db.headers, db.canon, path, currentHeader, first, last)
    {
      ValidHeaded();
      if Headed() {
        GenesisFirst(db.headers, genesisHeader, db.canon, currentHeader.number);
        GenesisFirst(db.headers, genesisHeader, path, first.number);
        assert Agree(db.canon, path, 0);
        GaplessAbove(db.canon, last.number, Cut(currentHeader, first, last));
      }
    }

    /** The batch collected by Reorg assigns every number what the target has. */
    lemma ListReachesPath(headers: seq<Header>, path: CanonIndex, canon: CanonIndex, b: Pending<nat, Hash>,
                          b': Pending<nat, Hash>, target: CanonIndex)
      requires headers != [] && Linked(headers) && AllStored(db.headers, headers)
      requires CanonicalTo(db.headers, path, headers[|headers| - 1])
      requires forall n: nat | headers[0].number <= n <= headers[|headers| - 1].number :: At(target, n) == At(path, n)
      requires forall n: nat | !(headers[0].number <= n <= headers[|headers| - 1].number) ::
                 After(canon, b, n) == At(target, n)
      requires forall n: nat :: After(canon, b', n) ==
                                if 0 <= n - headers[0].number < |headers|
                                then Some(headers[n - headers[0].number].hash) else After(canon, b, n)
      ensures forall n: nat :: After(canon, b', n) == At(target, n)
    {
      var base := headers[0].number;
      ListOnPath(db.headers, headers, path, 0);
      forall n: nat ensures After(canon, b', n) == At(target, n) {
        if 0 <= n - base < |headers| {
          ListOnPath(db.headers, headers, path, n - base);
        }
      }
    }

    /** Stores a linked list of headers whose first parent is already stored. */
    method WriteHeaders(headers: seq<Header>) returns (r: Result<nat, InsertError>)
      requires Closed(db.headers, genesisHeader) && Linked(headers) && NoCollision(db.headers, headers)
      modifies db
      ensures Closed(db.headers, genesisHeader)
      ensures old(Consistent()) ==> Consistent()
      ensures old(Headed()) ==> Headed()
      ensures old(Valid()) ==> Valid()
      ensures db.canon == old(db.canon) && db.txs == old(db.txs)
      ensures db.headFast == old(db.headFast) && db.headBlock == old(db.headBlock)
      ensures r.Err? <==> headers != [] && GetHeader(old(db.headers), headers[0].parent, headers[0].number - 1).None?
      ensures r.Err? ==> db.headers == old(db.headers)
      ensures r.Ok? ==> db.headers == WithHeaders(old(db.headers), headers) && AllStored(db.headers, headers)
      ensures r.Ok? ==> r.value <= |headers|
      ensures r.Ok? ==> forall i | 0 <= i < |headers| :: headers[i].hash in old(db.headers) <==> i < |headers| - r.value
    {
      if headers == [] {
        assert WithHeaders(db.headers, headers) == db.headers;
        return Ok(0);
      }
      if GetHeader(db.headers, headers[0].parent, headers[0].number - 1).None? {
        return Err(UnknownAncestor);
      }
      ghost var hs := db.headers;
      WithHeadersHas(hs, headers);
      WithHeadersClosed(hs, genesisHeader, headers);
      var batch, inserted := CollectUnknown(db.headers, headers, genesisHeader);
      MoreHeaders(WithHeaders(hs, headers));
      db.Write(batch);
      FlushNothing(old(db.canon));
      FlushNothing(old(db.txs));
      HeadedConsistent();
      return Ok(inserted);
    }

    /** More stored headers change nothing about the index. */
    lemma MoreHeaders(hs': HeaderStore)
      requires forall k | k in db.headers :: k in hs' && hs'[k] == db.headers[k]
      ensures Consistent() ==> Stored(hs', currentHeader) && Numbered(hs', db.canon)
      ensures Headed() ==> PathUpTo(hs', db.canon, currentHeader.number) && Consistent()
      ensures Valid() ==> CanonicalTo(hs', db.canon, currentHeader)
    {
      HeadedConsistent();
      ValidHeaded();
      if Consistent() {
        forall n: nat | n in db.canon ensures NumberedAt(hs', db.canon, n) {
          assert NumberedAt(db.headers, db.canon, n);
        }
      }
      if Headed() {
        PathInOtherStore(db.headers, hs', db.canon, currentHeader.number);
      }
    }

    /** Stores the headers and makes the last one the head, unless it already is canonical and not above the head. */
    method WriteHeadersAndSetHead(headers: seq<Header>) returns (r: Result<bool, InsertError>)
      requires Consistent() && Linked(headers) && NoCollision(db.headers, headers) && headers != []
      modifies this, db
      ensures Consistent() && (old(Valid()) ==> Valid())
      ensures db.txs == old(db.txs) && db.headFast == old(db.headFast) && db.headBlock == old(db.headBlock)
      ensures r.Err? <==> GetHeader(old(db.headers), headers[0].parent, headers[0].number - 1).None?
      ensures r.Err? ==>
                db.headers == old(db.headers) && db.canon == old(db.canon) && currentHeader == old(currentHeader)
      ensures r.Ok? ==> db.headers == WithHeaders(old(db.headers), headers)
      ensures r.Ok? ==> headers[|headers| - 1].number in db.canon
      ensures r.Ok? ==> db.canon[headers[|headers| - 1].number] == headers[|headers| - 1].hash
      ensures r.Ok? ==> (r.value <==> headers[|headers| - 1].hash !in old(db.canon.Values)
                                      || headers[|headers| - 1].number > old(currentHeader).number)
      ensures r.Ok? && r.value ==>
                var first, last, path := headers[0], headers[|headers| - 1],
                    PathTo(db.headers, genesisHeader, headers[|headers| - 1]);
                && currentHeader == last
                && db.canon == Target(old(db.canon), path, old(currentHeader), headers)
                && (db.canon == path <==> Fits(db.headers, old(db.canon), path, old(currentHeader), first, last))
                && (Valid() <==> db.canon == path)
      ensures r.Ok? && !r.value ==> currentHeader == old(currentHeader) && db.canon == old(db.canon)
    {
      var written := WriteHeaders(headers);
      if written.Err? {
        return Err(written.error);
      }
      var last := headers[|headers| - 1];
      assert last in headers;
      CanonicalByNumber(last);
      if ReadCanonicalHash(db.canon, last.number) == last.hash && last.number <= currentHeader.number {
        return Ok(false);
      }
      var failed := Reorg(headers);
      if failed.Some? {
        assert false;
        return Err(MissingParent);
      }
      return Ok(true);
    }

    /** A stored header's hash occurs in the index only under its own number. */
    lemma CanonicalByNumber(h: Header)
      requires Consistent() && Stored(db.headers, h)
      ensures h.hash != ZERO_HASH
      ensures h.hash in db.canon.Values <==> h.number in db.canon && db.canon[h.number] == h.hash
    {
      assert ClosedAt(db.headers, genesisHeader, h.hash);
      if h.hash in db.canon.Values {
        var n :| n in db.canon && db.canon[n] == h.hash;
        assert NumberedAt(db.headers, db.canon, n);
      }
    }

    /** The index is linked up to a number, or to its top. */
    ghost predicate LinkedFor(number: nat)
      reads this, db
    {
      forall n: nat {:trigger LinkedAt(db.headers, db.canon, n)} | n <= number && n in db.canon ::
        LinkedAt(db.headers, db.canon, n)
    }

    /** An index linked up to its top is linked for every number; one linked up to its head, for those up to the
      head. */
    lemma LinkedForAll(number: nat)
      requires Headed()
      ensures Valid() || number <= currentHeader.number ==> LinkedFor(number)
    {
      ValidHeaded();
      var top: nat :| LinkedUpTo(db.headers, db.canon, currentHeader, top);
      forall n: nat | n <= number && n in db.canon && (Valid() || number <= currentHeader.number)
        ensures LinkedAt(db.headers, db.canon, n)
      {
        assert n <= currentHeader.number;
      }
    }

    /** Below one of its entries such an index is one path. */
    lemma {:induction false} PathBelow(number: nat, n: nat)
      requires LinkedFor(number) && n <= number && n in db.canon
      ensures PathUpTo(db.headers, db.canon, n)
    {
      assert LinkedAt(db.headers, db.canon, n);
      if n > 0 {
        PathBelow(number, n - 1);
      }
    }

    /** The ancestor-th ancestor of (hash, number), reading the canonical index once the walk has reached it.
      Fails with (ZERO_HASH, 0) when more than maxNonCanonical links would have to be followed. The answer is right
      whenever the index is linked for the number. */
    method GetAncestor(hash: Hash, number: nat, ancestor: nat, maxNonCanonical: nat)
      returns (rHash: Hash, rNumber: nat, left: nat)
      requires Consistent()
      ensures left <= maxNonCanonical
      ensures (hash != ZERO_HASH || number in db.canon || ancestor <= 1)
              && !AncestorFound(db.headers, db.canon, hash, number, ancestor, maxNonCanonical) ==>
                rHash == ZERO_HASH && rNumber == 0
      ensures LinkedFor(number) && (hash != ZERO_HASH || number in db.canon || ancestor <= 1)
              && AncestorFound(db.headers, db.canon, hash, number, ancestor, maxNonCanonical) ==>
                WalkBack(db.headers, hash, number, ancestor) == Some((rHash, rNumber))
      // Linked or not: the links followed, which are charged to the budget, lead to the ancestor or to the first
      // canonical header on the way, where the index is read.
      ensures ancestor == 1 || ancestor > number ==> left == maxNonCanonical
      ensures hash != ZERO_HASH && ancestor != 1
              && AncestorFound(db.headers, db.canon, hash, number, ancestor, maxNonCanonical) ==>
                var k := maxNonCanonical - left;
                && k <= ancestor
                && (if k == ancestor then WalkBack(db.headers, hash, number, ancestor) == Some((rHash, rNumber))
                    else CanonicalAfter(db.headers, db.canon, hash, number, k)
                         && rHash == ReadCanonicalHash(db.canon, number - ancestor) && rNumber == number - ancestor)
                && forall j | 0 <= j < k :: !CanonicalAfter(db.headers, db.canon, hash, number, j)
      ensures hash == ZERO_HASH && number !in db.canon && 1 < ancestor <= number ==>
                rHash == ReadCanonicalHash(db.canon, number - ancestor) && rNumber == number - ancestor
    {
      left := maxNonCanonical;
      if ancestor > number {
        return ZERO_HASH, 0, left;
      }
      if ancestor == 1 {
        var header := GetHeader(db.headers, hash, number);
        match header {
          case Some(h) => return h.parent, number - 1, left;
          case None => return ZERO_HASH, 0, left;
        }
      }
      ghost var k := 0;
      var hash', number', ancestor' := hash, number, ancestor;
      while ancestor' != 0
        invariant 0 <= ancestor' && k <= ancestor <= number
        invariant k + ancestor' == ancestor && k + left == maxNonCanonical && number' == number - k
        invariant WalkBack(db.headers, hash, number, k) == Some((hash', number'))
        invariant forall j | 0 <= j < k :: !CanonicalAfter(db.headers, db.canon, hash, number, j)
        invariant k == 0 ==> hash' == hash
        invariant k > 0 ==> hash' != ZERO_HASH && (hash != ZERO_HASH || number in db.canon)
        decreases ancestor'
      {
        WalkBackCompose(db.headers, hash, number, k, ancestor');
        if ReadCanonicalHash(db.canon, number') == hash' {
          var ancestorHash := ReadCanonicalHash(db.canon, number' - ancestor');
          EntriesNonZero();
          if number' in db.canon {
            assert CanonicalAfter(db.headers, db.canon, hash, number, k);
            if LinkedFor(number) {
              PathBelow(number, number');
              WalkBackOnPath(db.headers, db.canon, number', number', ancestor');
            }
          }
          return ancestorHash, number' - ancestor', left;
        }
        assert !CanonicalAfter(db.headers, db.canon, hash, number, k);
        if left == 0 {
          return ZERO_HASH, 0, left;
        }
        left := left - 1;
        ancestor' := ancestor' - 1;
        var header := GetHeader(db.headers, hash', number');
        match header {
          case None =>
            forall j | k < j <= ancestor ensures WalkBack(db.headers, hash, number, j).None? {
              WalkBackCompose(db.headers, hash, number, k, j - k);
            }
            return ZERO_HASH, 0, left;
          case Some(h) =>
            WalkBackCompose(db.headers, hash, number, k, 1);
            assert ClosedAt(db.headers, genesisHeader, hash');
            assert ClosedAt(db.headers, genesisHeader, h.parent);
            hash', number', k := h.parent, number' - 1, k + 1;
        }
      }
      return hash', number', left;
    }

    // ----- Rewinding -----

    /** While a rewind runs: nothing is deleted yet, the head has moved down the old path, and once it has moved the
      batch deletes every header and index entry above it. */
    ghost predicate Rewinding(oldHead: Header, b: Batch, origin: bool)
      reads this, db`headers, db`canon, db`headHeader
    {
      && Numbered(db.headers, db.canon)
      && OnPathOf(db.headers, genesisHeader, oldHead, currentHeader)
      && currentHeaderHash == currentHeader.hash && db.headHeader == currentHeaderHash
      && b == EMPTY_BATCH.(headers := b.headers, canon := b.canon)
      && (if origin then b == EMPTY_BATCH && currentHeader == oldHead
          else
            && (forall k {:trigger After(db.headers, b.headers, k)} :: After(db.headers, b.headers, k) ==
                            if k in db.headers && db.headers[k].number <= currentHeader.number
                            then Some(db.headers[k]) else None)
            && (forall n: nat {:trigger After(db.canon, b.canon, n)} :: After(db.canon, b.canon, n) ==
                                 if n <= currentHeader.number then At(db.canon, n) else None))
    }

    /** One step of a rewind: moves the head to the parent and collects what its old number held. */
    method RewindOne(b: Batch, origin: bool, ghost oldHead: Header) returns (r: Batch)
      requires Rewinding(oldHead, b, origin) && currentHeader.number > 0
      modifies this, db`headHeader
      ensures currentHeader == Parent(db.headers, genesisHeader, old(currentHeader))
      ensures Rewinding(oldHead, r, false)
    {
      var hdr := currentHeader;
      ParentOnPath(db.headers, genesisHeader, hdr);
      OnLowerPath(db.headers, genesisHeader, oldHead, hdr, Parent(db.headers, genesisHeader, hdr));
      var found := GetHeader(db.headers, hdr.parent, hdr.number - 1);
      var parent := if found.Some? then found.value else genesisHeader;
      r := CollectDeleted(b, origin, oldHead);
      currentHeader := parent;
      currentHeaderHash := parent.hash;
      db.headHeader := parent.hash;
    }

    /** Collects the deletions of the head's number and, in the first step of a rewind, of everything above it. */
    method CollectDeleted(b: Batch, origin: bool, ghost oldHead: Header) returns (r: Batch)
      requires Rewinding(oldHead, b, origin)
      ensures r == EMPTY_BATCH.(headers := r.headers, canon := r.canon)
      ensures forall k {:trigger After(db.headers, r.headers, k)} :: After(db.headers, r.headers, k) ==
                if k in db.headers && db.headers[k].number < currentHeader.number then Some(db.headers[k]) else None
      ensures forall n: nat {:trigger After(db.canon, r.canon, n)} :: After(db.canon, r.canon, n) ==
                if n < currentHeader.number then At(db.canon, n) else None
    {
      var nums := [];
      if origin {
        nums := LeftoverNumbers(db.headers, currentHeader.number, genesisHeader);
      }
      nums := nums + [currentHeader.number];
      assert forall k | k in db.headers :: k in AllHashes(db.headers, db.headers[k].number);
      forall n: nat | n > currentHeader.number && origin && n in db.canon ensures n in nums {
        assert NumberedAt(db.headers, db.canon, n) && db.canon[n] in AllHashes(db.headers, n);
      }
      r := DeleteNumbers(db.headers, db.canon, nums, b);
    }

    /** Flushes the deletions of a rewind. */
    method FinishRewind(b: Batch, origin: bool, ghost oldHead: Header)
      requires Rewinding(oldHead, b, origin)
      modifies db
      ensures Consistent() && db.txs == old(db.txs) && db.headFast == old(db.headFast)
              && db.headBlock == old(db.headBlock)
      ensures !origin ==> (Valid() <==> PathUpTo(old(db.headers), old(db.canon), currentHeader.number)
                                        && old(db.canon)[currentHeader.number] == currentHeader.hash)
      ensures db.canon == if origin then old(db.canon) else IndexUpTo(old(db.canon), currentHeader.number)
      ensures db.headers == if origin then old(db.headers) else UpToNumber(old(db.headers), currentHeader.number)
    {
      FlushNothing(db.headers);
      FlushNothing(db.canon);
      FlushNothing(db.txs);
      CutChain(db.headers, genesisHeader, db.canon, currentHeader);
      if !origin {
        FlushIs(db.headers, b.headers, UpToNumber(db.headers, currentHeader.number));
        FlushIs(db.canon, b.canon, IndexUpTo(db.canon, currentHeader.number));
      }
      db.Write(b);
    }

    /** Rewinds to the highest header of the path that is not above the target, and deletes everything above it, side
      chains and left-over entries included. Rejects a target time before genesis. */
    method SetHead(headBlock: nat, headTime: nat) returns (rejected: bool)
      requires Consistent()
      modifies this, db
      ensures Consistent() && db.txs == old(db.txs) && db.headFast == old(db.headFast)
              && db.headBlock == old(db.headBlock)
      ensures rejected <==> headTime > 0 && genesisHeader.time > headTime
      ensures rejected || Done(old(currentHeader), headBlock, headTime) ==>
                currentHeader == old(currentHeader) && db.headers == old(db.headers) && db.canon == old(db.canon)
      ensures !rejected ==> Done(currentHeader, headBlock, headTime)
      ensures OnPathOf(old(db.headers), genesisHeader, old(currentHeader), currentHeader)
      ensures !rejected ==>
                NonePassed(old(db.headers), PathTo(old(db.headers), genesisHeader, old(currentHeader)),
                           currentHeader.number, old(currentHeader).number, headBlock, headTime)
      // By time when one is given, else by number: the head meets the target, and no header left behind did.
      ensures !rejected && headTime > 0 ==>
                && currentHeader.time <= headTime
                && LaterThan(old(db.headers), PathTo(old(db.headers), genesisHeader, old(currentHeader)),
                             currentHeader.number, old(currentHeader).number, headTime)
      ensures !rejected && headTime == 0 ==>
                && currentHeader.number <= headBlock
                && HigherThan(old(db.headers), PathTo(old(db.headers), genesisHeader, old(currentHeader)),
                              currentHeader.number, old(currentHeader).number, headBlock)
      ensures !rejected && !Done(old(currentHeader), headBlock, headTime) ==>
                && db.canon == IndexUpTo(old(db.canon), currentHeader.number)
                && db.headers == UpToNumber(old(db.headers), currentHeader.number)
                && (Valid() <==> PathUpTo(old(db.headers), old(db.canon), currentHeader.number)
                                 && old(db.canon)[currentHeader.number] == currentHeader.hash)
      // From an index linked up to its head, so exactly when it was exact or the rewind moves.
      ensures old(Headed()) ==> Headed()
      ensures old(Headed()) ==> (Valid() <==>
                                 old(Valid()) || (!rejected && !Done(old(currentHeader), headBlock, headTime)))
    {
      HeadedConsistent();
      ValidHeaded();
      ParentOnPath(db.headers, genesisHeader, currentHeader);
      if headTime > 0 && genesisHeader.time > headTime {
        return true;
      }
      ghost var oldHead := currentHeader;
      ghost var path := PathTo(db.headers, genesisHeader, oldHead);
      var batch, origin := EMPTY_BATCH, true;
      while !Done(currentHeader, headBlock, headTime)
        invariant Rewinding(oldHead, batch, origin)
        invariant db.headers == old(db.headers) && db.canon == old(db.canon) && db.txs == old(db.txs)
        invariant db.headFast == old(db.headFast) && db.headBlock == old(db.headBlock)
        invariant origin <==> currentHeader == oldHead
        invariant currentHeader != oldHead ==> !Done(oldHead, headBlock, headTime)
        invariant NonePassed(db.headers, path, currentHeader.number, oldHead.number, headBlock, headTime)
        decreases currentHeader.number
      {
        assert ClosedAt(db.headers, genesisHeader, currentHeader.hash);
        PassedOne(db.headers, path, oldHead.number, currentHeader, headBlock, headTime);
        batch := RewindOne(batch, origin, oldHead);
        origin := false;
      }
      LinkedBelow(oldHead);
      FinishRewind(batch, origin, oldHead);
      HeadedConsistent();
      ValidHeaded();
      return false;
    }

    /** While a rewind runs, an index that was linked up to the old head is so up to the head. */
    lemma LinkedBelow(oldHead: Header)
      requires OnPathOf(db.headers, genesisHeader, oldHead, currentHeader)
      requires PathUpTo(db.headers, db.canon, oldHead.number) ==> oldHead.number in db.canon
      ensures PathUpTo(db.headers, db.canon, oldHead.number) && db.canon[oldHead.number] == oldHead.hash ==>
                PathUpTo(db.headers, db.canon, currentHeader.number)
                && db.canon[currentHeader.number] == currentHeader.hash
    {
      if PathUpTo(db.headers, db.canon, oldHead.number) && db.canon[oldHead.number] == oldHead.hash {
        PathsAgree(db.headers, db.canon, PathTo(db.headers, genesisHeader, oldHead), oldHead.number);
      }
    }

    /** Entries are never the zero hash. */
    lemma EntriesNonZero()
      requires Consistent()
      ensures forall n: nat | n in db.canon :: db.canon[n] != ZERO_HASH
    {
      forall n: nat | n in db.canon ensures db.canon[n] != ZERO_HASH {
        assert NumberedAt(db.headers, db.canon, n) && ClosedAt(db.headers, genesisHeader, db.canon[n]);
      }
    }
  }

  /** Across an entry that is not linked the shortcut is wrong: asked for the second ancestor of any stored child of the
    entry, it reads the index, which does not hold what the parent links lead to. */
  lemma ShortcutWrong(hs: HeaderStore, canon: CanonIndex, n: nat, child: Header)
    requires n > 0 && NumberedAt(hs, canon, n) && n - 1 in canon && !LinkedAt(hs, canon, n)
    requires Stored(hs, child) && child.number == n + 1 && child.parent == canon[n]
    ensures CanonicalAfter(hs, canon, child.hash, n + 1, 0) || CanonicalAfter(hs, canon, child.hash, n + 1, 1)
    ensures WalkBack(hs, child.hash, n + 1, 2).Some? && WalkBack(hs, child.hash, n + 1, 2).value.0 != canon[n - 1]
  {
    assert WalkBack(hs, canon[n], n, 1) == WalkBack(hs, hs[canon[n]].parent, n - 1, 0);
    assert WalkBack(hs, child.hash, n + 1, 1) == WalkBack(hs, canon[n], n, 0);
  }
}
