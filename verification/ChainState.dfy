/** The state of the chain as a value, and what a block write makes of it (internal/blockchain.go, internal/forkchoice.go). */
module ChainState {
  import opened Wrappers
  import opened Bytes
  import opened ChainStore
  import opened Lru
  import opened BlockObjects
  import opened ForkWalk

  datatype WriteStatus = Canonical | Side

  /** 256-bit addition, wrapping. */
  function AddTd(td: U256, difficulty: U256): U256 {
    if td + difficulty < TWO_256 then td + difficulty else td + difficulty - TWO_256
  }

  /** Stored blocks form a tree, no chain repeats a transaction, and every block has its total difficulty. */
  ghost predicate StoredIs(bs: Blocks, g: Hash, tds: Tds) {
    && StoreOk(bs, g)
    && (forall h | h in bs :: TxsOnce(bs, g, h) && bs[h].number < TWO_64 - 1)
    && (forall h | h in bs :: (h, bs[h].number) in tds)
    && tds[(g, 0)] == 0
    && (forall h {:trigger BlockOk(bs, g, h)} | h in bs && h != g && BlockOk(bs, g, h) :: tds[(h, bs[h].number)] == AddTd(tds[(bs[h].parent, bs[h].number - 1)], bs[h].difficulty))
    && (forall k | k in tds :: k.0 in bs && bs[k.0].number == k.1)
  }

  const TD_CACHE_LIMIT: nat := 1024

  type Tds = map<(Hash, nat), U256>
  type TdCache = Cache<Option<U256>>

  /** Total difficulties in the cache, where not nil, are those of the store. */
  ghost predicate CachedIs(bs: Blocks, tds: Tds, cache: TdCache) {
    && LruOk(cache, TD_CACHE_LIMIT)
    && forall h | Lookup(cache, h).Some? && Lookup(cache, h).value.Some? ::
         h in bs && (h, bs[h].number) in tds && Lookup(cache, h).value.value == tds[(h, bs[h].number)]
  }

  /** The head is stored and both indexes are exactly its chain. */
  ghost predicate IndexedIs(bs: Blocks, g: Hash, canon: map<nat, Hash>, lookup: map<Tx, nat>, head: Block)
    requires StoreOk(bs, g)
  {
    && head.hash in bs && bs[head.hash] == head
    && CanonIs(bs, g, canon, head.hash)
    && LookupIs(bs, g, lookup, head.hash)
  }

  /** Nothing stored is lost or altered. */
  ghost predicate Keeps(bs: Blocks, tds: Tds, bs': Blocks, tds': Tds) {
    && (forall h | h in bs :: h in bs' && bs'[h] == bs[h])
    && (forall k | k in tds :: k in tds' && tds'[k] == tds[k])
  }

  /** What a validated block brings: an injective hash, a height in range, transactions new to its chain. */
  ghost predicate Admissible(bs: Blocks, g: Hash, b: Block)
    requires StoreOk(bs, g)
  {
    && b.hash != ZERO && b.number < TWO_64 - 1
    && (b.hash in bs ==> bs[b.hash] == b)
    && (b.hash !in bs && b.parent in bs ==> forall n, tx | TxAt(bs, g, b.parent, n, tx) :: tx !in b.txs)
  }

  lemma AddMod(a: nat, d: U256, r: U256)
    requires r == a % TWO_256
    ensures AddTd(r, d) == (a + d) % TWO_256
  {
    var q := a / TWO_256;
    if r + d < TWO_256 {
      DivModUnique(a + d, TWO_256, q, r + d);
    } else {
      DivModUnique(a + d, TWO_256, q + 1, r + d - TWO_256);
    }
  }

  /** A block's stored total difficulty is the sum of difficulties back to genesis, modulo 2^256. */
  lemma {:induction false} TdIsWork(bs: Blocks, g: Hash, tds: Tds, h: Hash)
    requires StoredIs(bs, g, tds) && h in bs
    ensures tds[(h, bs[h].number)] == Work(bs, g, h) % TWO_256
    decreases bs[h].number
  {
    assert BlockOk(bs, g, h);
    if h != g {
      var p := bs[h].parent;
      TdIsWork(bs, g, tds, p);
      AddMod(Work(bs, g, p), bs[h].difficulty, tds[(p, bs[p].number)]);
    }
  }

  lemma GrownIs(bs: Blocks, bs': Blocks, g: Hash, tds: Tds, tds': Tds, b: Block)
    requires StoredIs(bs, g, tds) && Grown(bs, bs', g, b) && b.number < TWO_64 - 1
    requires tds' == tds[(b.hash, b.number) := AddTd(tds[(b.parent, b.number - 1)], b.difficulty)]
    ensures StoredIs(bs', g, tds')
  {
    forall h | h in bs'
      ensures TxsOnce(bs', g, h) && bs'[h].number < TWO_64 - 1
    {
      TxsOnceGrow(bs, bs', g, b, h);
    }
    forall h | h in bs' && h != g && BlockOk(bs', g, h)
      ensures tds'[(h, bs'[h].number)] == AddTd(tds'[(bs'[h].parent, bs'[h].number - 1)], bs'[h].difficulty)
    {
      assert h in bs ==> BlockOk(bs, g, h);
    }
  }

  /** The write transaction of `writeBlockWithState` keeps the tree, its total difficulties, the cache and the indexes. */
  lemma StoreStep(bs: Blocks, bs': Blocks, g: Hash, tds: Tds, tds': Tds, b: Block)
    requires StoredIs(bs, g, tds) && Admissible(bs, g, b) && (b.parent, Pred(b.number)) in tds
    requires bs' == bs[b.hash := b] && tds' == tds[(b.hash, b.number) := AddTd(tds[(b.parent, Pred(b.number))], b.difficulty)]
    ensures StoredIs(bs', g, tds') && Keeps(bs, tds, bs', tds')
    ensures if b.hash in bs then bs' == bs && tds' == tds else Grown(bs, bs', g, b)
  {
    assert b.parent in bs && bs[b.parent].number == Pred(b.number);
    if b.hash in bs {
      assert BlockOk(bs, g, b.hash);
      assert bs' == bs && tds' == tds;
    } else {
      assert Fits(bs, g, b);
      GrownStore(bs, bs', g, b);
      GrownIs(bs, bs', g, tds, tds', b);
    }
  }

  lemma IndexStep(bs: Blocks, bs': Blocks, g: Hash, b: Block, canon: map<nat, Hash>, lookup: map<Tx, nat>, head: Block)
    requires StoreOk(bs, g) && IndexedIs(bs, g, canon, lookup, head)
    requires bs' == bs || Grown(bs, bs', g, b)
    ensures IndexedIs(bs', g, canon, lookup, head)
  {
    if bs' != bs {
      IndexGrow(bs, bs', g, b, canon, lookup, head.hash);
    }
  }

  /** Writing the head over the indexes of its parent's chain, or of its own, makes them exactly the head's. */
  lemma HeadStep(bs: Blocks, g: Hash, canon: map<nat, Hash>, lookup: map<Tx, nat>, b: Block, t: Hash)
    requires StoreOk(bs, g) && b.hash in bs && bs[b.hash] == b && TxsOnce(bs, g, b.hash) && t in bs
    requires t == b.hash || (b.number > 0 && t == b.parent)
    requires CanonIs(bs, g, canon, t) && LookupIs(bs, g, lookup, t)
    ensures IndexedIs(bs, g, canon[b.number := b.hash], WriteLookup(lookup, b), b)
  {
    assert BlockOk(bs, g, b.hash);
    if t == b.hash {
      Rewrite(bs, g, canon, lookup, b.hash);
    } else {
      Extend(bs, g, canon, lookup, b.hash);
    }
  }

  // The indexes of a chain.

  /** The number index and the lookup index written block by block from genesis. */
  function IndexOf(bs: Blocks, g: Hash, h: Hash): (map<nat, Hash>, map<Tx, nat>)
    requires StoreOk(bs, g) && h in bs
    decreases bs[h].number
  {
    assert BlockOk(bs, g, h);
    if bs[h].number == 0 then (map[0 := h], map[])
    else
      var (canon, lookup) := IndexOf(bs, g, bs[h].parent);
      (canon[bs[h].number := h], WriteLookup(lookup, bs[h]))
  }

  lemma {:induction false} IndexOfIs(bs: Blocks, g: Hash, h: Hash)
    requires StoreOk(bs, g) && h in bs && forall k | k in bs :: TxsOnce(bs, g, k)
    ensures CanonIs(bs, g, IndexOf(bs, g, h).0, h) && LookupIs(bs, g, IndexOf(bs, g, h).1, h)
    decreases bs[h].number
  {
    assert BlockOk(bs, g, h);
    if bs[h].number > 0 {
      var (canon, lookup) := IndexOf(bs, g, bs[h].parent);
      IndexOfIs(bs, g, bs[h].parent);
      Extend(bs, g, canon, lookup, h);
    }
  }

  lemma CanonUnique(bs: Blocks, g: Hash, h: Hash, a: map<nat, Hash>, b: map<nat, Hash>)
    requires StoreOk(bs, g) && h in bs && CanonIs(bs, g, a, h) && CanonIs(bs, g, b, h)
    ensures a == b
  {
    assert forall n :: n in a <==> n in b;
  }

  lemma LookupUnique(bs: Blocks, g: Hash, h: Hash, a: map<Tx, nat>, b: map<Tx, nat>)
    requires StoreOk(bs, g) && h in bs && LookupIs(bs, g, a, h) && LookupIs(bs, g, b, h)
    ensures a == b
  {
    assert forall tx | tx in a :: TxAt(bs, g, h, a[tx], tx);
    assert forall tx | tx in b :: TxAt(bs, g, h, b[tx], tx);
  }

  /** A chain has one number index and one lookup index. */
  lemma IndexUnique(bs: Blocks, g: Hash, h: Hash, canon: map<nat, Hash>, lookup: map<Tx, nat>)
    requires StoreOk(bs, g) && h in bs && (forall k | k in bs :: TxsOnce(bs, g, k))
    requires CanonIs(bs, g, canon, h) && LookupIs(bs, g, lookup, h)
    ensures IndexOf(bs, g, h) == (canon, lookup)
  {
    IndexOfIs(bs, g, h);
    CanonUnique(bs, g, h, canon, IndexOf(bs, g, h).0);
    LookupUnique(bs, g, h, lookup, IndexOf(bs, g, h).1);
  }

  /** The same, for the head written over the indexes of its parent's chain or of its own. */
  lemma HeadIndex(bs: Blocks, g: Hash, canon: map<nat, Hash>, lookup: map<Tx, nat>, b: Block, t: Hash)
    requires StoreOk(bs, g) && b.hash in bs && bs[b.hash] == b && t in bs && forall k | k in bs :: TxsOnce(bs, g, k)
    requires t == b.hash || (b.number > 0 && t == b.parent)
    requires CanonIs(bs, g, canon, t) && LookupIs(bs, g, lookup, t)
    ensures IndexOf(bs, g, b.hash) == (canon[b.number := b.hash], WriteLookup(lookup, b))
  {
    HeadStep(bs, g, canon, lookup, b, t);
    IndexUnique(bs, g, b.hash, canon[b.number := b.hash], WriteLookup(lookup, b));
  }
}
