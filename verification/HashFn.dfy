/** The memoising lookup of ancestor hashes that the EVM uses. */
module HashFns {
  import opened Wrappers
  import opened Chain
  import opened HeaderChains

  /** The hash found by following parents from the reference header down to number n; the zero hash when n is not
    below the reference or a header on the way is missing. */
  ghost function HashAt(hs: HeaderStore, ref: Header, n: nat): Hash {
    if n >= ref.number then ZERO_HASH
    else
      match WalkBack(hs, ref.parent, ref.number - 1, ref.number - 1 - n)
      case None => ZERO_HASH
      case Some((hash, _)) => hash
  }

  /** Every header of one store is in the other. */
  ghost predicate Extends(hs: HeaderStore, hs': HeaderStore) {
    forall h | h in hs :: h in hs' && hs'[h] == hs[h]
  }

  /** A walk through a store goes the same way through a bigger one. */
  lemma {:induction false} WalkInBigger(hs: HeaderStore, hs': HeaderStore, hash: Hash, number: nat, k: nat)
    requires Extends(hs, hs') && k <= number && WalkBack(hs, hash, number, k).Some?
    ensures WalkBack(hs', hash, number, k) == WalkBack(hs, hash, number, k)
    decreases k
  {
    if k > 0 {
      WalkInBigger(hs, hs', GetHeader(hs, hash, number).value.parent, number - 1, k - 1);
    }
  }

  /** cache[k] is the hash of the block with number ref.number - 1 - k. */
  ghost predicate CacheOk(hs: HeaderStore, ref: Header, cache: seq<Hash>) {
    && |cache| <= ref.number
    && forall k | 0 <= k < |cache| ::
         WalkBack(hs, ref.parent, ref.number - 1, k) == Some((cache[k], ref.number - 1 - k))
  }

  lemma {:induction false} CacheInBigger(hs: HeaderStore, hs': HeaderStore, ref: Header, cache: seq<Hash>)
    requires CacheOk(hs, ref, cache) && Extends(hs, hs')
    ensures CacheOk(hs', ref, cache)
  {
    forall k | 0 <= k < |cache|
      ensures WalkBack(hs', ref.parent, ref.number - 1, k) == Some((cache[k], ref.number - 1 - k))
    {
      assert WalkBack(hs, ref.parent, ref.number - 1, k) == Some((cache[k], ref.number - 1 - k));
      WalkInBigger(hs, hs', ref.parent, ref.number - 1, k);
    }
  }

  lemma {:induction false} Cached(hs: HeaderStore, ref: Header, cache: seq<Hash>, n: nat)
    requires CacheOk(hs, ref, cache) && n < ref.number && ref.number - 1 - n < |cache|
    ensures HashAt(hs, ref, n) == cache[ref.number - 1 - n]
  {
    assert WalkBack(hs, ref.parent, ref.number - 1, ref.number - 1 - n) == Some((cache[ref.number - 1 - n], n));
  }

  /** The header after the cache's last entry decides the next entry, or that nothing below can be found. */
  lemma {:induction false} NextEntry(hs: HeaderStore, ref: Header, cache: seq<Hash>, n: nat)
    requires CacheOk(hs, ref, cache) && 0 < |cache| && n < ref.number - |cache|
    ensures match GetHeader(hs, cache[|cache| - 1], ref.number - |cache|)
            case Some(h) => CacheOk(hs, ref, cache + [h.parent])
            case None => HashAt(hs, ref, n) == ZERO_HASH
  {
    WalkBackCompose(hs, ref.parent, ref.number - 1, |cache| - 1, 1);
    assert WalkBack(hs, ref.parent, ref.number - 1, |cache| - 1) == Some((cache[|cache| - 1], ref.number - |cache|));
    match GetHeader(hs, cache[|cache| - 1], ref.number - |cache|)
    case None => WalkBackCompose(hs, ref.parent, ref.number - 1, |cache|, ref.number - |cache| - 1 - n);
    case Some(h) => assert WalkBack(hs, h.parent, ref.number - |cache| - 1, 0).Some?;
  }

  class HashFn {
    const ref: Header
    var cache: seq<Hash>
    ghost var seen: HeaderStore  // the store as of the last call

    ghost predicate Valid()
      reads this
    {
      CacheOk(seen, ref, cache)
    }

    constructor (ref: Header)
      ensures this.ref == ref && cache == [] && seen == map[] && Valid()
    {
      this.ref, cache, seen := ref, [], map[];
    }

    /** The hash of the ancestor with number n. Between calls the chain may have gained headers. */
    method Get(hs: HeaderStore, n: nat) returns (hash: Hash)
      requires Valid() && Extends(seen, hs)
      modifies this
      ensures Valid() && seen == hs
      ensures hash == HashAt(hs, ref, n)
      ensures old(cache) <= cache
      ensures |cache| > |old(cache)| && |old(cache)| > 0 ==> |cache| <= ref.number - n
    {
      CacheInBigger(seen, hs, ref, cache);
      seen := hs;
      if ref.number <= n {
        return ZERO_HASH;
      }
      if |cache| == 0 {
        cache := [ref.parent];
      }
      var idx := ref.number - n - 1;
      if idx < |cache| {
        Cached(hs, ref, cache, n);
        return cache[idx];
      }
      var lastKnownHash := cache[|cache| - 1];
      var lastKnownNumber := ref.number - |cache|;
      while true
        invariant Valid() && seen == hs && old(cache) <= cache && 0 < |cache|
        invariant n < lastKnownNumber == ref.number - |cache| && lastKnownHash == cache[|cache| - 1]
        decreases lastKnownNumber
      {
        NextEntry(hs, ref, cache, n);
        var header := GetHeader(hs, lastKnownHash, lastKnownNumber);
        if header.None? {
          break;
        }
        cache := cache + [header.value.parent];
        lastKnownHash := header.value.parent;
        lastKnownNumber := header.value.number - 1;
        if n == lastKnownNumber {
          Cached(hs, ref, cache, n);
          return lastKnownHash;
        }
      }
      return ZERO_HASH;
    }
  }
}
