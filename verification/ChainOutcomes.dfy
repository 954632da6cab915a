/** Which blocks become the head: every outcome of a block write by conditions on the chain and the block alone. */
module ChainOutcomes {
  import opened Wrappers
  import opened Bytes
  import opened ChainStore
  import opened Lru
  import opened BlockObjects
  import opened ForkWalk
  import opened ChainState
  import opened ChainWrite
  import opened ChainRuns

  /** The parent is stored one number below the block. */
  predicate OnStored(c: Chain, b: Block) {
    b.number > 0 && b.parent in c.blocks && c.blocks[b.parent].number == b.number - 1
  }

  lemma ParentKnownIs(g: Hash, c: Chain, b: Block)
    requires ValidChain(g, c) && b.number < TWO_64 - 1
    ensures ParentKnown(c, b) <==> OnStored(c, b)
  {
  }

  /** The fork choice prefers the block, by the true total difficulties. */
  predicate Preferred(c: Chain, b: Block, choice: Choice)
    requires ParentKnown(c, b) && (c.current.hash, c.current.number) in c.tds
  {
    ReorgNeeded(HeadTd(c), NewTd(c, b), c.current.number, b.number, choice)
  }

  /**
   The block is a child of the head, lower than the head, the head itself as the same object, or a descendant of the
   head, whose object is the cached one and stays in the cache throughout the walk from the block down to it.
   */
  ghost predicate Reachable(g: Hash, bs: Blocks, cache: Cache<Ref>, head: Block, headRef: Ref, b: Block, ref: Ref)
    requires StoreOk(bs, g) && b.hash in bs && bs[b.hash] == b
  {
    || b.parent == head.hash || b.number < head.number || ref == headRef
    || (&& b.number > head.number && Anc(bs, g, b.hash, head.number) == head.hash && Lookup(cache, head.hash) == Some(headRef)
        && |Ahead(cache, head.hash) + Visited(bs, g, b.hash, head.number + 1)| < 1024)
  }

  /** The head, and the two indexes that describe its chain. */
  ghost predicate SameHead(c: Chain, c': Chain) {
    c'.current == c.current && c'.currentRef == c.currentRef && c'.headHash == c.headHash && c'.canon == c.canon && c'.lookup == c.lookup
  }

  ghost predicate HeadIs(c: Chain, b: Block, ref: Ref) {
    c.current == b && c.headHash == b.hash && c.currentRef == ref
  }

  /** The block is the new head if it is wanted and can be reached; if not wanted it is beside the chain, else refused. */
  ghost predicate OutcomeIs(wanted: bool, reachable: bool, c: Chain, b: Block, ref: Ref, c': Chain, r: WriteResult) {
    && (r == Ok(Canonical) <==> wanted && reachable)
    && (r == Ok(Side) <==> !wanted)
    && (r == Err(InvalidNewChain) <==> wanted && !reachable)
    && if r == Ok(Canonical) then HeadIs(c', b, ref) else SameHead(c, c')
  }

  /** The choice on a chain where the block is stored and the head's total difficulty can be read. */
  lemma ChosenExactly(g: Hash, c: Chain, b: Block, ref: Ref, choice: Choice)
    requires Ready(g, c, b, ref) && (ref == c.currentRef ==> b == c.current)
    requires Lookup(c.tdCache, b.hash) == Some(Some(c.tds[(b.hash, b.number)])) && !Poisoned(c.tdCache, c.current.hash)
    ensures var (c', r) := Chosen(g, c, b, ref, choice);
            var wanted := ReorgNeeded(HeadTd(c), c.tds[(b.hash, b.number)], c.current.number, b.number, choice);
            OutcomeIs(wanted, Reachable(g, c.blocks, c.objects.cache, c.current, c.currentRef, b, ref), c, b, ref, c', r)
  {
    TdsRead(g, c, b);
    MovesExactly(g, c, b, ref);
  }

  /** A write fails for want of a parent exactly when none is stored one number below, and then changes nothing but the objects. */
  lemma OrphanExactly(g: Hash, c: Chain, b: Block, obj: Option<Ref>, choice: Choice)
    requires ValidChain(g, c) && WriteOk(g, c, b, obj)
    ensures Written(g, c, b, obj, choice).1 == Err(UnknownAncestor) <==> !OnStored(c, b)
    ensures !OnStored(c, b) ==> Written(g, c, b, obj, choice).0 == c.(objects := Given(c.objects, obj).0)
  {
    ParentKnownIs(g, c, b);
  }

  lemma StoredTds(g: Hash, c: Chain, b: Block)
    requires ValidChain(g, c) && Admissible(c.blocks, g, b) && ParentKnown(c, b)
    ensures var s := Stored(c, b);
            && StoreOk(s.blocks, g) && (c.current.hash, c.current.number) in s.tds && HeadTd(s) == HeadTd(c)
            && s.blocks == c.blocks[b.hash := b] && s.tds == c.tds[(b.hash, b.number) := NewTd(c, b)]
  {
    StoredHolds(g, c, b);
  }

  /** What a write makes of a clean chain that has the parent. */
  ghost predicate WriteIs(g: Hash, c: Chain, b: Block, obj: Option<Ref>, choice: Choice, c': Chain, r: WriteResult)
    requires ValidChain(g, c) && WriteOk(g, c, b, obj) && OnStored(c, b)
  {
    ParentKnownIs(g, c, b);
    StoredTds(g, c, b);
    var ref := if obj.Some? then obj.value else c.objects.next;
    var bs := c.blocks[b.hash := b];
    && c'.blocks == bs && c'.tds == c.tds[(b.hash, b.number) := NewTd(c, b)]
    && OutcomeIs(Preferred(c, b, choice), Reachable(g, bs, c.objects.cache, c.current, c.currentRef, b, ref), c, b, ref, c', r)
  }

  /**
   Any other write on a clean chain stores the block. It becomes the head exactly when it is preferred and can be
   reached, stays beside the chain exactly when it is not preferred, and is refused otherwise, the head unchanged.
   */
  lemma WrittenExactly(g: Hash, c: Chain, b: Block, obj: Option<Ref>, choice: Choice)
    requires ValidChain(g, c) && WriteOk(g, c, b, obj) && Clean(c) && OnStored(c, b)
    ensures ParentKnown(c, b) && StoreOk(c.blocks[b.hash := b], g)
    ensures var (c', r) := Written(g, c, b, obj, choice);
            WriteIs(g, c, b, obj, choice, c', r)
  {
    ParentKnownIs(g, c, b);
    var (objects, ref) := Given(c.objects, obj);
    var s := Stored(c.(objects := objects), b);
    StoredTds(g, c, b);
    assert s.objects.cache == c.objects.cache && s.blocks == c.blocks[b.hash := b];
    StoredReady(g, c, b, obj);
    StoredClean(g, c, b);
    ChosenExactly(g, s, b, ref, choice);
    ChosenKeeps(g, s, b, ref, choice);
  }

  /** All that a write promises. */
  ghost predicate WriteGood(g: Hash, c: Chain, b: Block, obj: Option<Ref>, choice: Choice, c': Chain, r: WriteResult)
    requires ValidChain(g, c) && WriteOk(g, c, b, obj)
  {
    && ValidChain(g, c') && Advances(c, c')
    && (r == Err(UnknownAncestor) <==> !OnStored(c, b))
    && (Clean(c) && OnStored(c, b) ==> WriteIs(g, c, b, obj, choice, c', r))
  }

  lemma WrittenGood(g: Hash, c: Chain, b: Block, obj: Option<Ref>, choice: Choice)
    requires ValidChain(g, c) && WriteOk(g, c, b, obj)
    ensures var (c', r) := Written(g, c, b, obj, choice);
            WriteGood(g, c, b, obj, choice, c', r)
  {
    WrittenKeeps(g, c, b, obj, choice);
    OrphanExactly(g, c, b, obj, choice);
    if Clean(c) && OnStored(c, b) {
      WrittenExactly(g, c, b, obj, choice);
    }
  }

  /** A block that comes as an object of its own becomes the head exactly when it is preferred and a child of the head or lower. */
  lemma OwnWriteTaken(g: Hash, c: Chain, b: Block, choice: Choice)
    requires ValidChain(g, c) && WriteOk(g, c, b, None) && Clean(c) && HeadApart(c) && OnStored(c, b)
    ensures ParentKnown(c, b)
    ensures var (c', r) := Written(g, c, b, None, choice);
            r == Ok(Canonical) <==> Preferred(c, b, choice) && (b.parent == c.current.hash || b.number < c.current.number)
  {
    WrittenExactly(g, c, b, None, choice);
  }

  /** In every state of a run without a wrong question, a written child of the head with more work is the next head. */
  lemma RunExtends(g: Hash, states: seq<Chain>, ops: seq<Op>, i: nat)
    requires Run(g, states, ops) && ValidChain(g, states[0]) && Clean(states[0]) && i < |ops|
    requires forall k | 0 <= k < |ops| :: Honest(states[k], ops[k])
    requires ops[i].Write? && ops[i].b.parent == states[i].current.hash && ops[i].b.number == states[i].current.number + 1
    ensures ValidChain(g, states[i]) && ParentKnown(states[i], ops[i].b)
    ensures NewTd(states[i], ops[i].b) > HeadTd(states[i]) ==>
              && states[i + 1].current == ops[i].b && states[i + 1].headHash == ops[i].b.hash
              && states[i + 1].tds == states[i].tds[(ops[i].b.hash, ops[i].b.number) := NewTd(states[i], ops[i].b)]
  {
    RunClean(g, states, ops, i);
    WrittenExactly(g, states[i], ops[i].b, ops[i].obj, ops[i].choice);
  }

  function Difficulties(ops: seq<Op>, i: nat): nat
    requires i <= |ops| && forall k | 0 <= k < |ops| :: ops[k].Write?
  {
    if i == 0 then 0 else Difficulties(ops, i - 1) + ops[i - 1].b.difficulty
  }

  lemma {:induction false} DifficultiesRise(ops: seq<Op>, i: nat, j: nat)
    requires i <= j <= |ops| && forall k | 0 <= k < |ops| :: ops[k].Write?
    ensures Difficulties(ops, i) <= Difficulties(ops, j)
    decreases j
  {
    if i < j {
      DifficultiesRise(ops, i, j - 1);
    }
  }

  /** The block written last of the first `k`. */
  function Last(g: Block, ops: seq<Op>, k: nat): Block
    requires k <= |ops| && forall j | 0 <= j < |ops| :: ops[j].Write?
  {
    if k == 0 then g else ops[k - 1].b
  }

  predicate Child(b: Block, parent: Block) {
    b.parent == parent.hash && b.number == parent.number + 1 && b.difficulty > 0
  }

  /** Blocks written one upon the other, each with some difficulty, to a sum below 2^256. */
  predicate Linked(g: Block, ops: seq<Op>) {
    && (forall k | 0 <= k < |ops| :: ops[k].Write?)
    && (forall k | 0 <= k < |ops| :: Child(ops[k].b, Last(g, ops, k)))
    && Difficulties(ops, |ops|) < TWO_256
  }

  /** The next block of such a run has more work than the head. */
  lemma MoreWork(g: Hash, c: Chain, ops: seq<Op>, i: nat)
    requires ValidChain(g, c) && i < |ops| && (forall k | 0 <= k < |ops| :: ops[k].Write?) && ops[i].b.difficulty > 0
    requires HeadTd(c) == Difficulties(ops, i) && Difficulties(ops, |ops|) < TWO_256
    requires ParentKnown(c, ops[i].b) && ops[i].b.parent == c.current.hash && ops[i].b.number == c.current.number + 1
    ensures NewTd(c, ops[i].b) == Difficulties(ops, i + 1) > HeadTd(c)
  {
    DifficultiesRise(ops, i + 1, |ops|);
  }

  /** From a new chain, blocks written one upon the other each become the head, with all the work so far. */
  lemma {:induction false} RunGrows(g: Block, states: seq<Chain>, ops: seq<Op>, i: nat)
    requires g.hash != ZERO && g.number == 0 && g.parent == ZERO && g.txs == []
    requires Run(g.hash, states, ops) && states[0] == Initial(g) && Linked(g, ops) && i < |states|
    ensures ValidChain(g.hash, states[i]) && HeadTd(states[i]) == Difficulties(ops, i)
    ensures states[i].current == Last(g, ops, i)
  {
    InitialRuns(g);
    if i > 0 {
      RunGrows(g, states, ops, i - 1);
      assert Child(ops[i - 1].b, Last(g, ops, i - 1));
      RunExtends(g.hash, states, ops, i - 1);
      MoreWork(g.hash, states[i - 1], ops, i - 1);
      RunValid(g.hash, states, ops, i);
    }
  }
}
