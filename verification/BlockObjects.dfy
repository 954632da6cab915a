/**
 Block objects. `reorg` compares pointers, so it matters which object `GetBlock` hands out: the one in the block
 cache, or a newly decoded one (internal/blockchain_reader.go). Every decoded block has a number of its own.
 */
module BlockObjects {
  import opened Wrappers
  import opened ChainStore
  import opened Lru

  type Ref = nat

  const BLOCK_CACHE_LIMIT: nat := 1024

  /** The block cache, and the identity the next decoded object gets. */
  datatype Objects = Objects(cache: Cache<Ref>, next: Ref)

  /** `GetBlock` of a stored block: the cached object, else a new one that is cached. */
  function Fetch(o: Objects, h: Hash): (Objects, Ref) {
    match Lookup(o.cache, h)
    case Some(r) => (Objects(Touch(o.cache, h), o.next), r)
    case None => (Objects(Add(o.cache, h, o.next, BLOCK_CACHE_LIMIT), o.next + 1), o.next)
  }

  /** Entries are older than the next object, and an object is cached under one hash only. */
  ghost predicate CacheOk(o: Objects) {
    && LruOk(o.cache, BLOCK_CACHE_LIMIT)
    && (forall h | Lookup(o.cache, h).Some? :: Lookup(o.cache, h).value < o.next)
    && (forall h, k | Lookup(o.cache, h).Some? && Lookup(o.cache, k).Some? && h != k :: Lookup(o.cache, h) != Lookup(o.cache, k))
  }

  /** `r` is an object of the block `h`: it is not cached for another block. */
  ghost predicate ObjectOf(o: Objects, h: Hash, r: Ref) {
    r < o.next && forall k | Lookup(o.cache, k) == Some(r) :: k == h
  }

  /** What one fetch does to an entry. */
  lemma FetchLookup(o: Objects, h: Hash, k: Hash)
    requires LruOk(o.cache, BLOCK_CACHE_LIMIT)
    ensures var (o', r) := Fetch(o, h);
            && LruOk(o'.cache, BLOCK_CACHE_LIMIT)
            && (Lookup(o'.cache, k).None? || Lookup(o'.cache, k) == if k == h then Some(r) else Lookup(o.cache, k))
  {
    if Lookup(o.cache, h).Some? {
      TouchIs(o.cache, h, k, BLOCK_CACHE_LIMIT);
    } else {
      AddIs(o.cache, h, o.next, k, BLOCK_CACHE_LIMIT);
    }
  }

  /** What was fetched is cached. */
  lemma FetchFound(o: Objects, h: Hash)
    requires LruOk(o.cache, BLOCK_CACHE_LIMIT)
    ensures Lookup(Fetch(o, h).0.cache, h) == Some(Fetch(o, h).1)
  {
    if Lookup(o.cache, h).Some? {
      TouchIs(o.cache, h, h, BLOCK_CACHE_LIMIT);
    } else {
      AddIs(o.cache, h, o.next, h, BLOCK_CACHE_LIMIT);
    }
  }

  lemma FetchOk(o: Objects, h: Hash)
    requires CacheOk(o)
    ensures CacheOk(Fetch(o, h).0) && o.next <= Fetch(o, h).0.next
  {
    var o' := Fetch(o, h).0;
    FetchLookup(o, h, h);
    forall k | Lookup(o'.cache, k).Some?
      ensures Lookup(o'.cache, k).value < o'.next
    {
      FetchLookup(o, h, k);
    }
    forall j, k | Lookup(o'.cache, j).Some? && Lookup(o'.cache, k).Some? && j != k
      ensures Lookup(o'.cache, j) != Lookup(o'.cache, k)
    {
      FetchLookup(o, h, j);
      FetchLookup(o, h, k);
    }
  }

  /** An object of a block stays that, whatever is fetched. */
  lemma FetchKeepsObject(o: Objects, h: Hash, b: Hash, r: Ref)
    requires CacheOk(o) && ObjectOf(o, b, r)
    ensures ObjectOf(Fetch(o, h).0, b, r) && (Fetch(o, h).1 == r ==> h == b)
  {
    forall k | Lookup(Fetch(o, h).0.cache, k) == Some(r)
      ensures k == b
    {
      FetchLookup(o, h, k);
    }
  }

  /** The cache after the ancestors of `h` down to height `n` were fetched, one after the other. */
  function FetchDown(bs: Blocks, g: Hash, o: Objects, h: Hash, n: nat): Objects
    requires StoreOk(bs, g) && h in bs && n <= bs[h].number
    decreases bs[h].number - n
  {
    if n == bs[h].number then o else Fetch(FetchDown(bs, g, o, h, n + 1), Anc(bs, g, h, n)).0
  }

  /** The object that the walk from `h`, itself the object `r`, has in hand at height `n`. */
  function RefAt(bs: Blocks, g: Hash, o: Objects, h: Hash, r: Ref, n: nat): Ref
    requires StoreOk(bs, g) && h in bs && n <= bs[h].number
  {
    if n == bs[h].number then r else Fetch(FetchDown(bs, g, o, h, n + 1), Anc(bs, g, h, n)).1
  }

  lemma {:induction false} FetchDownOk(bs: Blocks, g: Hash, o: Objects, h: Hash, n: nat)
    requires StoreOk(bs, g) && h in bs && n <= bs[h].number && CacheOk(o)
    ensures CacheOk(FetchDown(bs, g, o, h, n)) && o.next <= FetchDown(bs, g, o, h, n).next
    decreases bs[h].number - n
  {
    if n < bs[h].number {
      FetchDownOk(bs, g, o, h, n + 1);
      FetchOk(FetchDown(bs, g, o, h, n + 1), Anc(bs, g, h, n));
    }
  }

  lemma {:induction false} FetchDownObject(bs: Blocks, g: Hash, o: Objects, h: Hash, n: nat, b: Hash, r: Ref)
    requires StoreOk(bs, g) && h in bs && n <= bs[h].number && CacheOk(o) && ObjectOf(o, b, r)
    ensures ObjectOf(FetchDown(bs, g, o, h, n), b, r)
    decreases bs[h].number - n
  {
    if n < bs[h].number {
      FetchDownObject(bs, g, o, h, n + 1, b, r);
      FetchDownOk(bs, g, o, h, n + 1);
      FetchKeepsObject(FetchDown(bs, g, o, h, n + 1), Anc(bs, g, h, n), b, r);
    }
  }

  /** The walk has an object of `b` in hand only where it is at `b`. */
  lemma RefIsBlock(bs: Blocks, g: Hash, o: Objects, h: Hash, r: Ref, n: nat, b: Hash, br: Ref)
    requires StoreOk(bs, g) && h in bs && n <= bs[h].number && CacheOk(o) && ObjectOf(o, b, br)
    requires (r == br ==> h == b) && RefAt(bs, g, o, h, r, n) == br
    ensures Anc(bs, g, h, n) == b
  {
    if n < bs[h].number {
      FetchDownOk(bs, g, o, h, n + 1);
      FetchDownObject(bs, g, o, h, n + 1, b, br);
      FetchKeepsObject(FetchDown(bs, g, o, h, n + 1), Anc(bs, g, h, n), b, br);
    }
  }

  /** An object outside the cache is never handed out by `GetBlock`. */
  ghost predicate Apart(o: Objects, r: Ref) {
    r < o.next && forall k :: Lookup(o.cache, k) != Some(r)
  }

  lemma FetchApart(o: Objects, h: Hash, r: Ref)
    requires CacheOk(o) && Apart(o, r)
    ensures Apart(Fetch(o, h).0, r) && Fetch(o, h).1 != r
  {
    forall k
      ensures Lookup(Fetch(o, h).0.cache, k) != Some(r)
    {
      FetchLookup(o, h, k);
    }
  }

  lemma {:induction false} FetchDownApart(bs: Blocks, g: Hash, o: Objects, h: Hash, n: nat, r: Ref)
    requires StoreOk(bs, g) && h in bs && n <= bs[h].number && CacheOk(o) && Apart(o, r)
    ensures Apart(FetchDown(bs, g, o, h, n), r)
    ensures n < bs[h].number ==> forall r0 :: RefAt(bs, g, o, h, r0, n) != r
    decreases bs[h].number - n
  {
    if n < bs[h].number {
      FetchDownApart(bs, g, o, h, n + 1, r);
      FetchDownOk(bs, g, o, h, n + 1);
      FetchApart(FetchDown(bs, g, o, h, n + 1), Anc(bs, g, h, n), r);
    }
  }

  // When the walk meets an object that is cached.

  /** The ancestors of `h` from height `n` up. */
  function Visited(bs: Blocks, g: Hash, h: Hash, n: nat): set<Hash>
    requires StoreOk(bs, g) && h in bs && n <= bs[h].number
    decreases bs[h].number - n
  {
    if n == bs[h].number then {} else Visited(bs, g, h, n + 1) + {Anc(bs, g, h, n)}
  }

  lemma FetchIsUse(o: Objects, h: Hash)
    ensures Fetch(o, h).0.cache == Use(o.cache, h, o.next, BLOCK_CACHE_LIMIT)
  {
  }

  /** A cached object survives the walk exactly when, with the blocks visited, fewer than 1024 entries are in front of it. */
  lemma {:induction false} Survives(bs: Blocks, g: Hash, o: Objects, h: Hash, n: nat, b: Hash)
    requires StoreOk(bs, g) && h in bs && n <= bs[h].number && CacheOk(o)
    requires b in bs && bs[b].number < n && Lookup(o.cache, b).Some?
    ensures Stands(o.cache, FetchDown(bs, g, o, h, n).cache, b, Ahead(o.cache, b) + Visited(bs, g, h, n), BLOCK_CACHE_LIMIT)
    decreases bs[h].number - n
  {
    if n == bs[h].number {
      AheadIs(o.cache, b, b, BLOCK_CACHE_LIMIT);
      assert Ahead(o.cache, b) + {} == Ahead(o.cache, b);
    } else {
      var o1, a := FetchDown(bs, g, o, h, n + 1), Anc(bs, g, h, n);
      var ahead := Ahead(o.cache, b) + Visited(bs, g, h, n + 1);
      Survives(bs, g, o, h, n + 1, b);
      FetchDownOk(bs, g, o, h, n + 1);
      StandsStep(o.cache, o1.cache, b, ahead, a, o1.next, BLOCK_CACHE_LIMIT);
      FetchIsUse(o1, a);
      assert Ahead(o.cache, b) + Visited(bs, g, h, n) == ahead + {a};
    }
  }

  lemma {:induction false} FetchDownOther(bs: Blocks, g: Hash, o: Objects, h: Hash, n: nat, b: Hash)
    requires StoreOk(bs, g) && h in bs && n <= bs[h].number && CacheOk(o) && b in bs && bs[b].number < n
    ensures var l := Lookup(FetchDown(bs, g, o, h, n).cache, b); l.None? || l == Lookup(o.cache, b)
    decreases bs[h].number - n
  {
    if n < bs[h].number {
      FetchDownOther(bs, g, o, h, n + 1, b);
      FetchDownOk(bs, g, o, h, n + 1);
      assert Anc(bs, g, h, n) != b;
      FetchLookup(FetchDown(bs, g, o, h, n + 1), Anc(bs, g, h, n), b);
    }
  }

  /**
   The walk from a higher block comes upon the object `r` of `b` exactly when it descends from `b`, `r` is the cached
   object, and the walk is not so long that `r` leaves the cache before it gets there.
   */
  lemma MeetsObject(bs: Blocks, g: Hash, o: Objects, h: Hash, hr: Ref, b: Hash, r: Ref)
    requires StoreOk(bs, g) && h in bs && b in bs && bs[b].number < bs[h].number
    requires CacheOk(o) && ObjectOf(o, b, r) && hr != r
    ensures var n := bs[b].number;
            RefAt(bs, g, o, h, hr, n) == r <==>
            && Anc(bs, g, h, n) == b && Lookup(o.cache, b) == Some(r)
            && |Ahead(o.cache, b) + Visited(bs, g, h, n + 1)| < BLOCK_CACHE_LIMIT
  {
    var n := bs[b].number;
    if RefAt(bs, g, o, h, hr, n) == r {
      RefIsBlock(bs, g, o, h, hr, n, b, r);
      InHand(bs, g, o, h, hr, b, r);
    }
    if Lookup(o.cache, b) == Some(r) {
      Survives(bs, g, o, h, n + 1, b);
    }
  }

  /** An object from before the walk that is in hand was in the cache, at the start and just before. */
  lemma InHand(bs: Blocks, g: Hash, o: Objects, h: Hash, hr: Ref, b: Hash, r: Ref)
    requires StoreOk(bs, g) && h in bs && b in bs && bs[b].number < bs[h].number && Anc(bs, g, h, bs[b].number) == b
    requires CacheOk(o) && r < o.next && RefAt(bs, g, o, h, hr, bs[b].number) == r
    ensures Lookup(o.cache, b) == Some(r) == Lookup(FetchDown(bs, g, o, h, bs[b].number + 1).cache, b)
  {
    FetchDownOk(bs, g, o, h, bs[b].number + 1);
    FetchDownOther(bs, g, o, h, bs[b].number + 1, b);
  }
}
