/** What holds over every run of block writes, with queries of blocks and total difficulties in between. */
module ChainRuns {
  import opened Wrappers
  import opened Bytes
  import opened ChainStore
  import opened Lru
  import opened BlockObjects
  import opened ForkWalk
  import opened ChainState
  import opened ChainWrite

  function HeadTd(c: Chain): nat
    requires (c.current.hash, c.current.number) in c.tds
  {
    c.tds[(c.current.hash, c.current.number)]
  }

  /** The head of `c'` is no worse than that of `c`, and nothing stored in `c` was lost or altered. */
  ghost predicate Advances(c: Chain, c': Chain) {
    && Keeps(c.blocks, c.tds, c'.blocks, c'.tds)
    && (c.current.hash, c.current.number) in c.tds && (c'.current.hash, c'.current.number) in c'.tds
    && NoWorse(HeadTd(c'), c'.current.number, HeadTd(c), c.current.number)
  }

  lemma SearchedOk(g: Hash, c: Chain, b: Block, ref: Ref, k: Hash, r: Ref)
    requires Holds(g, c, b) && CacheOk(c.objects) && ObjectOf(c.objects, k, r)
    ensures CacheOk(Searched(g, c, b, ref)) && ObjectOf(Searched(g, c, b, ref), k, r)
  {
    if b.parent != c.current.hash {
      var low := if Meets(c.blocks, g, c.objects, c.current, c.currentRef, b, ref) then c.current.number else 0;
      if c.current.number > b.number {
        FetchDownOk(c.blocks, g, c.objects, c.current.hash, b.number);
        FetchDownObject(c.blocks, g, c.objects, c.current.hash, b.number, k, r);
      } else {
        FetchDownOk(c.blocks, g, c.objects, b.hash, low);
        FetchDownObject(c.blocks, g, c.objects, b.hash, low, k, r);
      }
    }
  }

  /** A valid chain with `b` stored and held by the object `ref`. */
  ghost predicate Ready(g: Hash, c: Chain, b: Block, ref: Ref) {
    ValidChain(g, c) && Holds(g, c, b) && ObjectOf(c.objects, b.hash, ref)
  }

  lemma HeadMovedValid(g: Hash, c: Chain, b: Block, ref: Ref)
    requires Ready(g, c, b, ref)
    ensures ValidChain(g, HeadMoved(g, c, b, ref))
  {
    IndexOfIs(c.blocks, g, b.hash);
    SearchedOk(g, c, b, ref, b.hash, ref);
  }

  /** Reading the two total difficulties keeps the chain valid and gives the true ones, or nil for a poisoned head. */
  lemma TdsRead(g: Hash, c: Chain, b: Block)
    requires ValidChain(g, c) && Holds(g, c, b) && Lookup(c.tdCache, b.hash) == Some(Some(c.tds[(b.hash, b.number)]))
    ensures var (cache1, localTd) := ReadTd(c.tds, c.tdCache, c.current.hash, c.current.number);
            var (cache2, externTd) := ReadTd(c.tds, cache1, b.hash, b.number);
            && ValidChain(g, c.(tdCache := cache2)) && externTd == Some(c.tds[(b.hash, b.number)])
            && localTd == if Poisoned(c.tdCache, c.current.hash) then None else Some(HeadTd(c))
  {
    var (cache1, localTd) := ReadTd(c.tds, c.tdCache, c.current.hash, c.current.number);
    ReadTdKeeps(c.blocks, g, c.tds, c.tdCache, c.current.hash, c.current.number);
    ReadTdKeeps(c.blocks, g, c.tds, cache1, b.hash, b.number);
    ReadTdIs(c.blocks, g, c.tds, c.tdCache, c.current.hash);
    PoisonedBy(c.blocks, g, c.tds, c.tdCache, b.hash, c.current.hash, c.current.number);
    ReadTdIs(c.blocks, g, c.tds, cache1, b.hash);
  }

  lemma DecidedValid(g: Hash, c: Chain, b: Block, ref: Ref, choice: Choice, localTd: Option<U256>, externTd: Option<U256>)
    requires Ready(g, c, b, ref)
    ensures ValidChain(g, Decided(g, c, b, ref, choice, localTd, externTd).0)
  {
    SearchedOk(g, c, b, ref, c.current.hash, c.currentRef);
    HeadMovedValid(g, c, b, ref);
  }

  lemma DecidedAdvances(g: Hash, c: Chain, b: Block, ref: Ref, choice: Choice, localTd: Option<U256>, externTd: Option<U256>)
    requires Holds(g, c, b) && (b.hash, b.number) in c.tds && (c.current.hash, c.current.number) in c.tds
    requires externTd == Some(c.tds[(b.hash, b.number)]) && (localTd.Some? ==> localTd.value == HeadTd(c))
    ensures var c' := Decided(g, c, b, ref, choice, localTd, externTd).0;
            c'.blocks == c.blocks && c'.tds == c.tds && Advances(c, c')
  {
  }

  /** The fork choice panics exactly on a poisoned head, keeps the chain valid, and never takes a worse head. */
  lemma ChosenKeeps(g: Hash, c: Chain, b: Block, ref: Ref, choice: Choice)
    requires Ready(g, c, b, ref) && Lookup(c.tdCache, b.hash) == Some(Some(c.tds[(b.hash, b.number)]))
    ensures var (c', r) := Chosen(g, c, b, ref, choice);
            && ValidChain(g, c') && c'.blocks == c.blocks && c'.tds == c.tds && Advances(c, c')
            && (r == Err(NilTd) <==> Poisoned(c.tdCache, c.current.hash))
  {
    TdsRead(g, c, b);
    var (cache1, localTd) := ReadTd(c.tds, c.tdCache, c.current.hash, c.current.number);
    var (cache2, externTd) := ReadTd(c.tds, cache1, b.hash, b.number);
    DecidedValid(g, c.(tdCache := cache2), b, ref, choice, localTd, externTd);
    DecidedAdvances(g, c.(tdCache := cache2), b, ref, choice, localTd, externTd);
  }

  /** The chain after the write transaction is ready for the choice, its total difficulty cached. */
  lemma StoredReady(g: Hash, c: Chain, b: Block, obj: Option<Ref>)
    requires ValidChain(g, c) && WriteOk(g, c, b, obj) && ParentKnown(c, b)
    ensures var (objects, ref) := Given(c.objects, obj);
            var s := Stored(c.(objects := objects), b);
            Ready(g, s, b, ref) && Lookup(s.tdCache, b.hash) == Some(Some(s.tds[(b.hash, b.number)])) && Keeps(c.blocks, c.tds, s.blocks, s.tds)
  {
    StoredHolds(g, c, b);
    AddIs(c.tdCache, b.hash, Some(Stored(c, b).tds[(b.hash, b.number)]), b.hash, TD_CACHE_LIMIT);
  }

  /** A block write keeps the chain valid, loses nothing, and never leaves a worse head. */
  lemma WrittenKeeps(g: Hash, c: Chain, b: Block, obj: Option<Ref>, choice: Choice)
    requires ValidChain(g, c) && WriteOk(g, c, b, obj)
    ensures var c' := Written(g, c, b, obj, choice).0; ValidChain(g, c') && Advances(c, c')
  {
    if ParentKnown(c, b) {
      var (objects, ref) := Given(c.objects, obj);
      StoredReady(g, c, b, obj);
      ChosenKeeps(g, Stored(c.(objects := objects), b), b, ref, choice);
    }
  }

  /** A block write panics exactly when the head's nil is still cached once the block's own total difficulty is. */
  lemma PanicsExactly(g: Hash, c: Chain, b: Block, obj: Option<Ref>, choice: Choice)
    requires ValidChain(g, c) && WriteOk(g, c, b, obj)
    ensures Written(g, c, b, obj, choice).1 == Err(NilTd) <==> ParentKnown(c, b) && Poisoned(Stored(c, b).tdCache, c.current.hash)
  {
    if ParentKnown(c, b) {
      var (objects, ref) := Given(c.objects, obj);
      StoredReady(g, c, b, obj);
      ChosenKeeps(g, Stored(c.(objects := objects), b), b, ref, choice);
    }
  }

  // Runs.

  /** A block write, or a query that changes the caches. */
  datatype Op =
    | Write(b: Block, obj: Option<Ref>, choice: Choice)
    | AskTd(hash: Hash, number: nat)
    | AskBlock(hash: Hash, number: nat)

  ghost predicate OpOk(g: Hash, c: Chain, op: Op)
    requires StoreOk(c.blocks, g)
  {
    op.Write? ==> WriteOk(g, c, op.b, op.obj)
  }

  /** `GetBlock`: a cached block whatever the number, or a stored one under its number. */
  function Asked(c: Chain, hash: Hash, number: nat): Objects {
    if hash != ZERO && (Lookup(c.objects.cache, hash).Some? || ReadBlock(c.blocks, hash, number).Some?) then Fetch(c.objects, hash).0
    else c.objects
  }

  ghost function Perform(g: Hash, c: Chain, op: Op): Chain
    requires ValidChain(g, c) && OpOk(g, c, op)
  {
    match op
    case Write(b, obj, choice) => Written(g, c, b, obj, choice).0
    case AskTd(hash, number) => c.(tdCache := ReadTd(c.tds, c.tdCache, hash, number).0)
    case AskBlock(hash, number) => c.(objects := Asked(c, hash, number))
  }

  /** Each state follows from the one before it by an admissible operation. */
  ghost predicate Run(g: Hash, states: seq<Chain>, ops: seq<Op>) {
    && |states| == |ops| + 1
    && forall i | 0 <= i < |ops| && ValidChain(g, states[i]) :: OpOk(g, states[i], ops[i]) && states[i + 1] == Perform(g, states[i], ops[i])
  }

  lemma PerformKeeps(g: Hash, c: Chain, op: Op)
    requires ValidChain(g, c) && OpOk(g, c, op)
    ensures ValidChain(g, Perform(g, c, op)) && Advances(c, Perform(g, c, op))
  {
    match op
    case Write(b, obj, choice) => WrittenKeeps(g, c, b, obj, choice);
    case AskTd(hash, number) => ReadTdKeeps(c.blocks, g, c.tds, c.tdCache, hash, number);
    case AskBlock(hash, number) =>
      FetchOk(c.objects, hash);
      FetchKeepsObject(c.objects, hash, c.current.hash, c.currentRef);
  }

  /** In every state of every run the tree is sound, total difficulties add up, caches agree and both indexes are the head's chain. */
  lemma {:induction false} RunValid(g: Hash, states: seq<Chain>, ops: seq<Op>, i: nat)
    requires Run(g, states, ops) && ValidChain(g, states[0]) && i < |states|
    ensures ValidChain(g, states[i])
  {
    if i > 0 {
      RunValid(g, states, ops, i - 1);
      PerformKeeps(g, states[i - 1], ops[i - 1]);
    }
  }

  lemma AdvancesNowhere(g: Hash, c: Chain)
    requires ValidChain(g, c)
    ensures Advances(c, c)
  {
  }

  lemma AdvancesOn(a: Chain, b: Chain, c: Chain)
    requires Advances(a, b) && Advances(b, c)
    ensures Advances(a, c)
  {
  }

  lemma RunStepAdvances(g: Hash, states: seq<Chain>, ops: seq<Op>, k: nat)
    requires Run(g, states, ops) && ValidChain(g, states[0]) && k < |ops|
    ensures Advances(states[k], states[k + 1])
  {
    RunValid(g, states, ops, k);
    PerformKeeps(g, states[k], ops[k]);
  }

  /** Over every stretch of a run nothing stored is lost and the head does not get worse. */
  lemma {:induction false} RunAdvances(g: Hash, states: seq<Chain>, ops: seq<Op>, i: nat, j: nat)
    requires Run(g, states, ops) && ValidChain(g, states[0]) && i <= j < |states|
    ensures Advances(states[i], states[j])
    decreases j
  {
    if i == j {
      RunValid(g, states, ops, i);
      AdvancesNowhere(g, states[i]);
    } else {
      RunAdvances(g, states, ops, i, j - 1);
      RunStepAdvances(g, states, ops, j - 1);
      AdvancesOn(states[i], states[j - 1], states[j]);
    }
  }

  /** In every state of every run a block's total difficulty is the sum of difficulties back to genesis, modulo 2^256. */
  lemma RunTds(g: Hash, states: seq<Chain>, ops: seq<Op>, i: nat, h: Hash)
    requires Run(g, states, ops) && ValidChain(g, states[0]) && i < |states| && h in states[i].blocks
    ensures var c := states[i];
            StoreOk(c.blocks, g) && (h, c.blocks[h].number) in c.tds && c.tds[(h, c.blocks[h].number)] == Work(c.blocks, g, h) % TWO_256
  {
    RunValid(g, states, ops, i);
    TdIsWork(states[i].blocks, g, states[i].tds, h);
  }

  // Runs without a wrong question.

  /** No stored block has a nil for its total difficulty. */
  ghost predicate Clean(c: Chain) {
    forall h | h in c.blocks :: !Poisoned(c.tdCache, h)
  }

  /** A total difficulty is asked for under the number the block has, if it is stored. */
  ghost predicate Honest(c: Chain, op: Op) {
    op.AskTd? && op.hash in c.blocks ==> op.number == c.blocks[op.hash].number
  }

  lemma ReadKeepsClean(g: Hash, c: Chain, hash: Hash, number: nat)
    requires StoredIs(c.blocks, g, c.tds) && CachedIs(c.blocks, c.tds, c.tdCache) && Clean(c)
    requires hash in c.blocks ==> number == c.blocks[hash].number
    ensures Clean(c.(tdCache := ReadTd(c.tds, c.tdCache, hash, number).0))
  {
    forall h | h in c.blocks
      ensures !Poisoned(ReadTd(c.tds, c.tdCache, hash, number).0, h)
    {
      PoisonedBy(c.blocks, g, c.tds, c.tdCache, h, hash, number);
    }
  }

  lemma StoredClean(g: Hash, c: Chain, b: Block)
    requires ValidChain(g, c) && Clean(c) && ParentKnown(c, b)
    ensures Clean(Stored(c, b))
  {
    var s := Stored(c, b);
    forall h | h in s.blocks
      ensures !Poisoned(s.tdCache, h)
    {
      AddIs(c.tdCache, b.hash, Some(s.tds[(b.hash, b.number)]), h, TD_CACHE_LIMIT);
    }
  }

  lemma ChosenClean(g: Hash, c: Chain, b: Block, ref: Ref, choice: Choice)
    requires ValidChain(g, c) && Holds(g, c, b) && Clean(c)
    ensures Clean(Chosen(g, c, b, ref, choice).0)
  {
    var cache1 := ReadTd(c.tds, c.tdCache, c.current.hash, c.current.number).0;
    ReadKeepsClean(g, c, c.current.hash, c.current.number);
    ReadTdKeeps(c.blocks, g, c.tds, c.tdCache, c.current.hash, c.current.number);
    ReadKeepsClean(g, c.(tdCache := cache1), b.hash, b.number);
  }

  lemma WrittenClean(g: Hash, c: Chain, b: Block, obj: Option<Ref>, choice: Choice)
    requires ValidChain(g, c) && WriteOk(g, c, b, obj) && Clean(c)
    ensures Clean(Written(g, c, b, obj, choice).0) && Written(g, c, b, obj, choice).1 != Err(NilTd)
  {
    PanicsExactly(g, c, b, obj, choice);
    if ParentKnown(c, b) {
      var (objects, ref) := Given(c.objects, obj);
      StoredClean(g, c, b);
      StoredReady(g, c, b, obj);
      ChosenClean(g, Stored(c.(objects := objects), b), b, ref, choice);
    }
  }

  /** From a clean chain no block write of a run panics, as long as no stored block is asked for under a wrong number. */
  lemma {:induction false} RunClean(g: Hash, states: seq<Chain>, ops: seq<Op>, i: nat)
    requires Run(g, states, ops) && ValidChain(g, states[0]) && Clean(states[0]) && i < |states|
    requires forall k | 0 <= k < |ops| :: Honest(states[k], ops[k])
    ensures ValidChain(g, states[i]) && Clean(states[i])
    ensures i < |ops| && ops[i].Write? ==> Written(g, states[i], ops[i].b, ops[i].obj, ops[i].choice).1 != Err(NilTd)
  {
    RunValid(g, states, ops, i);
    if i > 0 {
      RunClean(g, states, ops, i - 1);
      var c, op := states[i - 1], ops[i - 1];
      match op
      case Write(b, obj, choice) => WrittenClean(g, c, b, obj, choice);
      case AskTd(hash, number) =>
        assert Honest(c, op);
        ReadKeepsClean(g, c, hash, number);
      case AskBlock(_, _) =>
    }
    if i < |ops| && ops[i].Write? {
      WrittenClean(g, states[i], ops[i].b, ops[i].obj, ops[i].choice);
    }
  }

  // Which heads the pointer comparison lets through.

  /**
   The head can move exactly to its children, to lower blocks, to itself as the same object, and to descendants whose
   walk comes upon the head's object: it has to be the cached one, with room in the cache for the whole walk.
   */
  lemma MovesExactly(g: Hash, c: Chain, b: Block, ref: Ref)
    requires ValidChain(g, c) && Holds(g, c, b) && (ref == c.currentRef ==> b == c.current)
    ensures var h, n := c.current.hash, c.current.number;
            Moves(g, c, b, ref) <==>
            b.parent == h || b.number < n || ref == c.currentRef ||
            (&& b.number > n && Anc(c.blocks, g, b.hash, n) == h && Lookup(c.objects.cache, h) == Some(c.currentRef)
             && |Ahead(c.objects.cache, h) + Visited(c.blocks, g, b.hash, n + 1)| < BLOCK_CACHE_LIMIT)
  {
    if b.number > c.current.number {
      MeetsObject(c.blocks, g, c.objects, b.hash, ref, c.current.hash, c.currentRef);
    }
  }

  /** Every block is written from an object of its own, as it comes from the network. */
  predicate Own(op: Op) {
    op.Write? ==> op.obj.None?
  }

  /** The head's object is not in the block cache, so `GetBlock` never hands it out. */
  ghost predicate HeadApart(c: Chain) {
    Apart(c.objects, c.currentRef)
  }

  /** Then the head can move exactly to its children and to lower blocks. */
  lemma MovesApart(g: Hash, c: Chain, b: Block, ref: Ref)
    requires ValidChain(g, c) && Holds(g, c, b) && HeadApart(c) && ref != c.currentRef
    ensures Moves(g, c, b, ref) <==> b.parent == c.current.hash || b.number < c.current.number
  {
    MovesExactly(g, c, b, ref);
  }

  lemma SearchedApart(g: Hash, c: Chain, b: Block, ref: Ref, r: Ref)
    requires Holds(g, c, b) && CacheOk(c.objects) && Apart(c.objects, r)
    ensures Apart(Searched(g, c, b, ref), r)
  {
    if b.parent != c.current.hash {
      if c.current.number > b.number {
        FetchDownApart(c.blocks, g, c.objects, c.current.hash, b.number, r);
      } else {
        FetchDownApart(c.blocks, g, c.objects, b.hash,
          if Meets(c.blocks, g, c.objects, c.current, c.currentRef, b, ref) then c.current.number else 0, r);
      }
    }
  }

  lemma ChosenApart(g: Hash, c: Chain, b: Block, ref: Ref, choice: Choice)
    requires ValidChain(g, c) && Holds(g, c, b) && HeadApart(c) && Apart(c.objects, ref) && ref != c.currentRef
    ensures var (c', r) := Chosen(g, c, b, ref, choice);
            && HeadApart(c')
            && (r == Ok(Canonical) ==> b.parent == c.current.hash || b.number < c.current.number)
            && (r == Err(InvalidNewChain) ==> b.parent != c.current.hash && b.number >= c.current.number)
  {
    SearchedApart(g, c, b, ref, c.currentRef);
    SearchedApart(g, c, b, ref, ref);
    MovesApart(g, c, b, ref);
  }

  /** A write from an object of its own: a head that is taken is a child of the old one or lower, one that fails is neither. */
  lemma WrittenApart(g: Hash, c: Chain, b: Block, choice: Choice)
    requires ValidChain(g, c) && WriteOk(g, c, b, None) && HeadApart(c)
    ensures var (c', r) := Written(g, c, b, None, choice);
            && HeadApart(c')
            && (r == Ok(Canonical) ==> b.parent == c.current.hash || b.number < c.current.number)
            && (r == Err(InvalidNewChain) ==> b.parent != c.current.hash && b.number >= c.current.number)
  {
    if ParentKnown(c, b) {
      var (objects, ref) := Given(c.objects, None);
      StoredReady(g, c, b, None);
      ChosenApart(g, Stored(c.(objects := objects), b), b, ref, choice);
    }
  }

  /**
   Over every run in which blocks come as objects of their own, a branch as high as the head or higher never replaces
   it, whatever its work: only children of the head and lower blocks do.
   */
  lemma {:induction false} RunRefusesBranches(g: Hash, states: seq<Chain>, ops: seq<Op>, i: nat)
    requires Run(g, states, ops) && ValidChain(g, states[0]) && HeadApart(states[0]) && i < |states|
    requires forall k | 0 <= k < |ops| :: Own(ops[k])
    ensures HeadApart(states[i])
    ensures i < |ops| && states[i + 1].current != states[i].current ==>
              states[i + 1].current.parent == states[i].current.hash || states[i + 1].current.number < states[i].current.number
  {
    RunValid(g, states, ops, i);
    if i > 0 {
      RunRefusesBranches(g, states, ops, i - 1);
      RunValid(g, states, ops, i - 1);
      PerformApart(g, states[i - 1], ops[i - 1]);
    }
    if i < |ops| {
      PerformApart(g, states[i], ops[i]);
    }
  }

  lemma PerformApart(g: Hash, c: Chain, op: Op)
    requires ValidChain(g, c) && OpOk(g, c, op) && HeadApart(c) && Own(op)
    ensures var c' := Perform(g, c, op);
            HeadApart(c') && (c'.current != c.current ==> c'.current.parent == c.current.hash || c'.current.number < c.current.number)
  {
    match op
    case Write(b, _, choice) => WrittenApart(g, c, b, choice);
    case AskTd(_, _) =>
    case AskBlock(hash, _) => FetchApart(c.objects, hash, c.currentRef);
  }

  /** The total difficulty the block gets. */
  function NewTd(c: Chain, b: Block): nat
    requires ParentKnown(c, b)
  {
    AddTd(c.tds[(b.parent, Pred(b.number))], b.difficulty)
  }

  /**
   On a clean chain, a write from an object of its own fails exactly when the fork choice prefers a block that is as
   high as the head or higher and not its child.
   */
  lemma OwnWriteFailsExactly(g: Hash, c: Chain, b: Block, choice: Choice)
    requires ValidChain(g, c) && WriteOk(g, c, b, None) && HeadApart(c) && Clean(c) && ParentKnown(c, b)
    ensures Written(g, c, b, None, choice).1 == Err(InvalidNewChain) <==>
            ReorgNeeded(HeadTd(c), NewTd(c, b), c.current.number, b.number, choice) && b.parent != c.current.hash && b.number >= c.current.number
  {
    var (objects, ref) := Given(c.objects, None);
    var s := Stored(c.(objects := objects), b);
    StoredReady(g, c, b, None);
    TdsRead(g, s, b);
    StoredClean(g, c, b);
    MovesApart(g, s, b, ref);
  }

  /** Blocks without transactions: nothing repeats, nothing to look up. */
  lemma NoTxs(bs: Blocks, g: Hash, h: Hash)
    requires StoreOk(bs, g) && h in bs && forall k | k in bs :: bs[k].txs == []
    ensures (forall k | k in bs :: TxsOnce(bs, g, k)) && LookupIs(bs, g, map[], h)
    ensures forall k, n, tx | k in bs :: !TxAt(bs, g, k, n, tx)
  {
  }

  /** Genesis, the head at height one, and a third block that is not on the head's chain. */
  function ThreeBlocks(third: Block): Chain {
    var g, was := Block(1, 0, ZERO, 0, []), Block(2, 1, 1, 1, []);
    Chain(map[1 := g, 2 := was, 3 := third], map[(1, 0) := 0, (2, 1) := 1, (3, third.number) := 1], map[0 := 1, 1 := 2], map[],
      2, was, 1, [], Objects([], 3))
  }

  /** A sibling of the head with the head's work. */
  const SIBLING := Block(3, 1, 1, 1, [])

  /** A child of the head without work, which did not become the head. */
  const LIGHT_CHILD := Block(3, 2, 2, 0, [])

  lemma ThreeStored(third: Block)
    requires third == SIBLING || third == LIGHT_CHILD
    ensures StoredIs(ThreeBlocks(third).blocks, 1, ThreeBlocks(third).tds)
    ensures forall k, n, tx | k in ThreeBlocks(third).blocks :: !TxAt(ThreeBlocks(third).blocks, 1, k, n, tx)
  {
    var c := ThreeBlocks(third);
    assert StoreOk(c.blocks, 1);
    NoTxs(c.blocks, 1, 2);
  }

  lemma ThreeValid(third: Block)
    requires third == SIBLING || third == LIGHT_CHILD
    ensures ValidChain(1, ThreeBlocks(third)) && Clean(ThreeBlocks(third)) && HeadApart(ThreeBlocks(third))
  {
    var c := ThreeBlocks(third);
    ThreeStored(third);
    NoTxs(c.blocks, 1, 2);
    assert CanonIs(c.blocks, 1, c.canon, 2) by {
      assert Anc(c.blocks, 1, 2, 1) == 2 && Anc(c.blocks, 1, 2, 0) == 1;
    }
  }

  /** A block on the sibling, with more work than the head: the fork choice wants it and the write fails. */
  lemma HeavierBranchRefused(choice: Choice)
    ensures var c, b := ThreeBlocks(SIBLING), Block(4, 2, 3, 1, []);
            && ValidChain(1, c) && WriteOk(1, c, b, None) && ParentKnown(c, b) && NewTd(c, b) > HeadTd(c)
            && Written(1, c, b, None, choice).1 == Err(InvalidNewChain)
  {
    ThreeValid(SIBLING);
    ThreeStored(SIBLING);
    OwnWriteFailsExactly(1, ThreeBlocks(SIBLING), Block(4, 2, 3, 1, []), choice);
  }

  /** Even a grandchild of the head fails, though it only extends the chain. */
  lemma GrandchildRefused(choice: Choice)
    ensures var c, b := ThreeBlocks(LIGHT_CHILD), Block(4, 3, 3, 1, []);
            && ValidChain(1, c) && WriteOk(1, c, b, None) && Anc(c.blocks, 1, b.parent, 1) == c.current.hash
            && Written(1, c, b, None, choice).1 == Err(InvalidNewChain)
  {
    ThreeValid(LIGHT_CHILD);
    ThreeStored(LIGHT_CHILD);
    OwnWriteFailsExactly(1, ThreeBlocks(LIGHT_CHILD), Block(4, 3, 3, 1, []), choice);
  }

  /** One question for the head's total difficulty under a wrong number, and the next block write panics. */
  lemma WrongNumberPanics(g: Block, number: nat, b: Block, choice: Choice)
    requires g.hash != ZERO && g.number == 0 && g.parent == ZERO && g.txs == [] && number != 0
    requires b.hash != ZERO && b.hash != g.hash && b.parent == g.hash && b.number == 1
    ensures ValidChain(g.hash, Initial(g)) && OpOk(g.hash, Initial(g), AskTd(g.hash, number))
    ensures var c := Perform(g.hash, Initial(g), AskTd(g.hash, number));
            ValidChain(g.hash, c) && WriteOk(g.hash, c, b, None) && Written(g.hash, c, b, None, choice).1 == Err(NilTd)
  {
    InitialValid(g);
    PerformKeeps(g.hash, Initial(g), AskTd(g.hash, number));
    var c := Perform(g.hash, Initial(g), AskTd(g.hash, number));
    assert c.tdCache == [Entry(g.hash, None)];
    assert forall n, tx :: !TxAt(c.blocks, g.hash, g.hash, n, tx);
    PanicsExactly(g.hash, c, b, None, choice);
    assert Stored(c, b).tdCache[1..] == c.tdCache;
  }

  /** A new chain is clean, and its head's object is its own. */
  lemma InitialRuns(g: Block)
    requires g.hash != ZERO && g.number == 0 && g.parent == ZERO && g.txs == []
    ensures ValidChain(g.hash, Initial(g)) && Clean(Initial(g)) && HeadApart(Initial(g))
  {
    InitialValid(g);
  }
}
