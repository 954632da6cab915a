/** `writeBlockWithState` as a function from one chain state to the next. */
module ChainWrite {
  import opened Wrappers
  import opened Bytes
  import opened ChainStore
  import opened Lru
  import opened BlockObjects
  import opened ForkWalk
  import opened ChainState

  /** The tables of the chain database, the head with the object that holds it, and the two caches. */
  datatype Chain = Chain(
    blocks: Blocks, tds: Tds, canon: map<nat, Hash>, lookup: map<Tx, nat>, headHash: Hash,
    current: Block, currentRef: Ref, tdCache: TdCache, objects: Objects)

  type WriteResult = Result<WriteStatus, ChainError>

  /** The local preference for the old and the new head, and the coin, of the fork choice. */
  datatype Choice = Choice(currentPreserve: bool, externPreserve: bool, coin: bool)

  ghost predicate ValidChain(g: Hash, c: Chain) {
    && StoredIs(c.blocks, g, c.tds) && CachedIs(c.blocks, c.tds, c.tdCache)
    && IndexedIs(c.blocks, g, c.canon, c.lookup, c.current) && c.headHash == c.current.hash
    && CacheOk(c.objects) && ObjectOf(c.objects, c.current.hash, c.currentRef)
  }

  /** `GenesisBlock.Write` and `NewBlockChain`: total difficulty zero, canonical at height zero, caches empty. */
  function Initial(g: Block): Chain {
    Chain(map[g.hash := g], map[(g.hash, 0) := 0], map[0 := g.hash], map[], g.hash, g, 0, [], Objects([], 1))
  }

  lemma InitialValid(g: Block)
    requires g.hash != ZERO && g.number == 0 && g.parent == ZERO && g.txs == []
    ensures ValidChain(g.hash, Initial(g))
  {
  }

  // Total difficulties.

  /** `GetTd`: the cache, else the table, remembering the answer even when it is nil. */
  function ReadTd(tds: Tds, cache: TdCache, hash: Hash, number: nat): (TdCache, Option<U256>) {
    match Lookup(cache, hash)
    case Some(td) => (Touch(cache, hash), td)
    case None =>
      var td := if (hash, number) in tds then Some(tds[(hash, number)]) else None;
      (Add(cache, hash, td, TD_CACHE_LIMIT), td)
  }

  lemma AddTdKeeps(bs: Blocks, tds: Tds, cache: TdCache, hash: Hash, td: Option<U256>)
    requires CachedIs(bs, tds, cache)
    requires td.Some? ==> hash in bs && (hash, bs[hash].number) in tds && td.value == tds[(hash, bs[hash].number)]
    ensures CachedIs(bs, tds, Add(cache, hash, td, TD_CACHE_LIMIT))
  {
    AddIs(cache, hash, td, hash, TD_CACHE_LIMIT);
    forall h
      ensures var l := Lookup(Add(cache, hash, td, TD_CACHE_LIMIT), h);
              if h == hash then l == Some(td) else l.None? || l == Lookup(cache, h)
    {
      AddIs(cache, hash, td, h, TD_CACHE_LIMIT);
    }
  }

  lemma ReadTdKeeps(bs: Blocks, g: Hash, tds: Tds, cache: TdCache, hash: Hash, number: nat)
    requires StoredIs(bs, g, tds) && CachedIs(bs, tds, cache)
    ensures CachedIs(bs, tds, ReadTd(tds, cache, hash, number).0)
  {
    if Lookup(cache, hash).Some? {
      TouchIs(cache, hash, hash, TD_CACHE_LIMIT);
      forall h
        ensures Lookup(Touch(cache, hash), h) == Lookup(cache, h)
      {
        TouchIs(cache, hash, h, TD_CACHE_LIMIT);
      }
    } else {
      AddTdKeeps(bs, tds, cache, hash, ReadTd(tds, cache, hash, number).1);
    }
  }

  /** The cache holds a nil for the block, so its total difficulty cannot be read. */
  predicate Poisoned(cache: TdCache, h: Hash) {
    Lookup(cache, h) == Some(None)
  }

  /** Where the cache has no nil for a stored block, `GetTd` gives its true total difficulty; where it has, nil. */
  lemma ReadTdIs(bs: Blocks, g: Hash, tds: Tds, cache: TdCache, h: Hash)
    requires StoredIs(bs, g, tds) && CachedIs(bs, tds, cache) && h in bs
    ensures ReadTd(tds, cache, h, bs[h].number).1 == if Poisoned(cache, h) then None else Some(tds[(h, bs[h].number)])
  {
  }

  /**
   A query leaves a nil for a stored block exactly when it asks for that block, uncached, under a wrong number, or when
   the nil was there and fewer than 1024 entries, the one asked for included, are then in front of it.
   */
  lemma PoisonedBy(bs: Blocks, g: Hash, tds: Tds, cache: TdCache, h: Hash, hash: Hash, number: nat)
    requires StoredIs(bs, g, tds) && CachedIs(bs, tds, cache) && h in bs
    ensures var cache' := ReadTd(tds, cache, hash, number).0;
            Poisoned(cache', h) <==>
            if h == hash && Lookup(cache, hash).None? then number != bs[h].number
            else Poisoned(cache, h) && (h == hash || |Ahead(cache, h) + {hash}| < 1024)
  {
    var td := ReadTd(tds, cache, hash, number).1;
    if h != hash && Lookup(cache, h).Some? {
      assert ReadTd(tds, cache, hash, number).0 == Use(cache, hash, td, TD_CACHE_LIMIT);
      UseAhead(cache, hash, td, h, TD_CACHE_LIMIT);
    } else if Lookup(cache, hash).Some? {
      TouchIs(cache, hash, h, TD_CACHE_LIMIT);
    } else {
      AddIs(cache, hash, td, h, TD_CACHE_LIMIT);
    }
  }

  // The fork choice.

  /** `ForkChoice.ReorgNeeded`: more work wins; at equal work the lower block, then the local preference or a coin. */
  function ReorgNeeded(localTd: nat, externTd: nat, head: nat, number: nat, c: Choice): bool {
    externTd > localTd
    || (externTd == localTd && (number < head || (number == head && !c.currentPreserve && (c.externPreserve || c.coin))))
  }

  /** The order of heads: more total difficulty, then fewer blocks. */
  predicate NoWorse(td: nat, number: nat, td0: nat, number0: nat) {
    td > td0 || (td == td0 && number <= number0)
  }

  /** The fork choice takes a better head and keeps one; only between heads equal in both do preference and coin decide. */
  lemma ForkChoiceOrder(localTd: nat, externTd: nat, head: nat, number: nat, c: Choice)
    ensures var needed := ReorgNeeded(localTd, externTd, head, number, c);
            && (!NoWorse(localTd, head, externTd, number) ==> needed)
            && (!NoWorse(externTd, number, localTd, head) ==> !needed)
            && (externTd == localTd && number == head ==> (needed <==> !c.currentPreserve && (c.externPreserve || c.coin)))
  {
  }

  // The write.

  /** The object that holds the block to write: one that exists already, or a new one. */
  function Given(o: Objects, obj: Option<Ref>): (Objects, Ref) {
    match obj
    case Some(r) => (o, r)
    case None => (Objects(o.cache, o.next + 1), o.next)
  }

  /** The block passed validation, and an object given for it is not another block's. */
  ghost predicate WriteOk(g: Hash, c: Chain, b: Block, obj: Option<Ref>)
    requires StoreOk(c.blocks, g)
  {
    && Admissible(c.blocks, g, b)
    && (obj.Some? ==> ObjectOf(c.objects, b.hash, obj.value) && (obj.value == c.currentRef ==> b == c.current))
  }

  predicate ParentKnown(c: Chain, b: Block) {
    (b.parent, Pred(b.number)) in c.tds
  }

  /** The write transaction and the total difficulty cached after it. */
  function Stored(c: Chain, b: Block): Chain
    requires ParentKnown(c, b)
  {
    var td := AddTd(c.tds[(b.parent, Pred(b.number))], b.difficulty);
    c.(blocks := c.blocks[b.hash := b], tds := c.tds[(b.hash, b.number) := td],
       tdCache := Add(c.tdCache, b.hash, Some(td), TD_CACHE_LIMIT))
  }

  /** Block and head are stored. */
  ghost predicate Holds(g: Hash, c: Chain, b: Block) {
    StoreOk(c.blocks, g) && b.hash in c.blocks && c.blocks[b.hash] == b && c.current.hash in c.blocks && c.blocks[c.current.hash] == c.current
  }

  /** The head can move to `b`: a child of the head, a lower block, or a descendant that comes upon the head's object. */
  ghost predicate Moves(g: Hash, c: Chain, b: Block, ref: Ref)
    requires Holds(g, c, b)
  {
    b.parent == c.current.hash || Meets(c.blocks, g, c.objects, c.current, c.currentRef, b, ref)
  }

  /** The block cache after an attempt to move the head. */
  ghost function Searched(g: Hash, c: Chain, b: Block, ref: Ref): Objects
    requires Holds(g, c, b)
  {
    if b.parent == c.current.hash then c.objects else Walked(c.blocks, g, c.objects, c.current, c.currentRef, b, ref)
  }

  ghost function HeadMoved(g: Hash, c: Chain, b: Block, ref: Ref): Chain
    requires Holds(g, c, b)
  {
    var (canon, lookup) := IndexOf(c.blocks, g, b.hash);
    c.(canon := canon, lookup := lookup, headHash := b.hash, current := b, currentRef := ref, objects := Searched(g, c, b, ref))
  }

  /** The fork chosen by the two total difficulties, and the head moved or not. */
  ghost function Decided(g: Hash, c: Chain, b: Block, ref: Ref, choice: Choice, localTd: Option<U256>, externTd: Option<U256>): (Chain, WriteResult)
    requires Holds(g, c, b)
  {
    if localTd.None? || externTd.None? then (c, Err(NilTd))
    else if !ReorgNeeded(localTd.value, externTd.value, c.current.number, b.number, choice) then (c, Ok(Side))
    else if !Moves(g, c, b, ref) then (c.(objects := Searched(g, c, b, ref)), Err(InvalidNewChain))
    else (HeadMoved(g, c, b, ref), Ok(Canonical))
  }

  /** What follows the write transaction: both total difficulties read, then the decision. */
  ghost function Chosen(g: Hash, c: Chain, b: Block, ref: Ref, choice: Choice): (Chain, WriteResult)
    requires Holds(g, c, b)
  {
    var (cache1, localTd) := ReadTd(c.tds, c.tdCache, c.current.hash, c.current.number);
    var (cache2, externTd) := ReadTd(c.tds, cache1, b.hash, b.number);
    Decided(g, c.(tdCache := cache2), b, ref, choice, localTd, externTd)
  }

  /** `writeBlockWithState`. */
  ghost function Written(g: Hash, c: Chain, b: Block, obj: Option<Ref>, choice: Choice): (Chain, WriteResult)
    requires ValidChain(g, c) && WriteOk(g, c, b, obj)
  {
    var (objects, ref) := Given(c.objects, obj);
    var c' := c.(objects := objects);
    if !ParentKnown(c, b) then (c', Err(UnknownAncestor))
    else
      StoredHolds(g, c, b);
      Chosen(g, Stored(c', b), b, ref, choice)
  }

  lemma StoredHolds(g: Hash, c: Chain, b: Block)
    requires ValidChain(g, c) && Admissible(c.blocks, g, b) && ParentKnown(c, b)
    ensures var s := Stored(c, b);
            && Holds(g, s, b) && StoredIs(s.blocks, g, s.tds) && Keeps(c.blocks, c.tds, s.blocks, s.tds)
            && IndexedIs(s.blocks, g, s.canon, s.lookup, s.current) && CachedIs(s.blocks, s.tds, s.tdCache)
  {
    var s := Stored(c, b);
    StoreStep(c.blocks, s.blocks, g, c.tds, s.tds, b);
    IndexStep(c.blocks, s.blocks, g, b, c.canon, c.lookup, c.current);
    assert CachedIs(s.blocks, s.tds, c.tdCache);
    AddTdKeeps(s.blocks, s.tds, c.tdCache, b.hash, Some(s.tds[(b.hash, b.number)]));
  }
}
