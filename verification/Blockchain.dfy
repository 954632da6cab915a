/** Writing blocks and moving the head (internal/blockchain.go, internal/forkchoice.go): the object behind `ChainWrite`. */
module Blockchain {
  import opened Wrappers
  import opened Bytes
  import opened ChainStore
  import opened Lru
  import opened BlockObjects
  import opened ReorgSteps
  import opened ForkWalk
  import opened ChainState
  import opened ChainWrite
  import opened ChainRuns
  import opened ChainOutcomes

  /** The chain both indexes describe after `reorg`: the parent's, or the tip's own when it is an old ancestor. */
  function Base(tip: Block, f: Fork): Hash {
    if f.newChain == [] then tip.hash else tip.parent
  }

  lemma BaseIsTop(bs: Blocks, g: Hash, tip: Block, f: Fork)
    requires StoreOk(bs, g) && tip.hash in bs && bs[tip.hash] == tip
    requires f.common.number <= tip.number && IsBranch(bs, g, tip.hash, f.common.number, f.newChain)
    ensures Base(tip, f) == Anc(bs, g, tip.hash, ReorgTop(tip, f)) && (f.newChain != [] ==> tip.number > 0)
  {
    if f.newChain != [] {
      AncParent(bs, g, tip.hash, tip.number);
    }
  }

  class BlockChain {
    const genesis: Hash
    // Tables of the chain database.
    var blocks: Blocks
    var tds: Tds
    var canon: map<nat, Hash>
    var lookup: map<Tx, nat>
    var headHash: Hash
    // In memory: the head and the object that holds it, the caches, and the blocks to try later.
    var current: Block
    var currentRef: Ref
    var tdCache: TdCache
    var objects: Objects
    var futureBlocks: set<Hash>

    /** The state as a value. */
    ghost function Snapshot(): Chain
      reads this`blocks, this`tds, this`canon, this`lookup, this`headHash, this`current, this`currentRef, this`tdCache, this`objects
    {
      Chain(blocks, tds, canon, lookup, headHash, current, currentRef, tdCache, objects)
    }

    ghost predicate Valid()
      reads this`blocks, this`tds, this`canon, this`lookup, this`headHash, this`current, this`currentRef, this`tdCache, this`objects
    {
      ValidChain(genesis, Snapshot())
    }

    /** `GenesisBlock.Write` and `NewBlockChain`. */
    constructor (g: Block)
      requires g.hash != ZERO && g.number == 0 && g.parent == ZERO && g.txs == []
      ensures Snapshot() == Initial(g) && genesis == g.hash && futureBlocks == {}
      ensures Valid() && Clean(Snapshot()) && HeadApart(Snapshot())
    {
      genesis := g.hash;
      blocks := map[g.hash := g];
      tds := map[(g.hash, 0) := 0];
      canon := map[0 := g.hash];
      lookup := map[];
      headHash := g.hash;
      current := g;
      currentRef := 0;
      tdCache := [];
      objects := Objects([], 1);
      futureBlocks := {};
      InitialRuns(g);
    }

    /** `writeHeadBlock`. */
    method WriteHeadBlock(b: Block)
      modifies this`headHash, this`lookup, this`canon, this`current
      ensures headHash == b.hash && current == b
      ensures lookup == WriteLookup(old(lookup), b) && canon == old(canon)[b.number := b.hash]
    {
      headHash := b.hash;
      for i := 0 to |b.txs|
        invariant headHash == b.hash && canon == old(canon)
        invariant lookup == WriteLookup(old(lookup), b.(txs := b.txs[..i]))
      {
        LookupPut(old(lookup), b, i);
        lookup := lookup[b.txs[i] := b.number];
      }
      assert b.txs[..|b.txs|] == b.txs;
      canon := canon[b.number := b.hash];
      current := b;
    }

    /** The loop of `reorg` that makes the new branch canonical, all but its head, lowest block first. */
    method WriteBranch(f: Fork, ghost bs: Blocks, ghost g: Hash, ghost was: Hash, ghost tip: Hash) returns (addedTxs: seq<Tx>)
      requires Forked(bs, g, was, tip, f.common.number) && IsBranch(bs, g, tip, f.common.number, f.newChain)
      requires BranchWritten(bs, g, was, tip, f.common.number, f.common.number, canon, lookup, [])
      modifies this`headHash, this`lookup, this`canon, this`current
      ensures f.common.number <= ReorgTop(bs[tip], f) <= bs[tip].number
      ensures BranchWritten(bs, g, was, tip, f.common.number, ReorgTop(bs[tip], f), canon, lookup, addedTxs)
    {
      addedTxs := [];
      var i := |f.newChain| - 1;
      ghost var cn: nat, top: nat := f.common.number, bs[tip].number - (i + 1);
      while i >= 1
        invariant -1 <= i < |f.newChain| && top == bs[tip].number - (i + 1) && cn <= top <= bs[tip].number
        invariant i == -1 ==> f.newChain == []
        invariant BranchWritten(bs, g, was, tip, cn, top, canon, lookup, addedTxs)
      {
        var b := f.newChain[i];
        assert bs[tip].number - i == top + 1;
        BranchStep(bs, g, was, tip, cn, top, canon, lookup, addedTxs, b);
        WriteHeadBlock(b);
        addedTxs := addedTxs + b.txs;
        i, top := i - 1, top + 1;
      }
      assert top == ReorgTop(bs[tip], f);
    }

    /** Delete the lookups of transactions that were dropped and not taken over. */
    method DropLookups(deletedTxs: seq<Tx>, addedTxs: seq<Tx>)
      modifies this`lookup
      ensures lookup == old(lookup) - set tx | tx in deletedTxs && tx !in addedTxs
    {
      var gone := HashDifference(deletedTxs, addedTxs);
      for i := 0 to |gone|
        invariant lookup == old(lookup) - set tx | tx in gone[..i]
      {
        lookup := lookup - {gone[i]};
      }
      assert (set tx | tx in gone[..|gone|]) == set tx | tx in deletedTxs && tx !in addedTxs;
    }

    /** Delete the canonical numbers above `number`, up to the first gap. */
    method CutCanon(number: nat, ghost hi: nat)
      requires FilledTo(canon, hi)
      modifies this`canon
      ensures canon == Truncate(old(canon), number + 1)
    {
      var i := number + 1;
      while i in canon
        invariant i > number
        invariant canon == if i == number + 1 then old(canon) else Truncate(old(canon), number + 1)
        decreases if i == number + 1 then 1 else 0
      {
        canon := Truncate(canon, i);
        i := i + 1;
      }
    }

    /** The rewriting half of `reorg`, from the fork found by the walk. */
    method Rewrite(f: Fork, ghost bs: Blocks, ghost g: Hash, ghost was: Hash, ghost tip: Hash)
      requires Forked(bs, g, was, tip, f.common.number) && ForkOk(bs, g, was, tip, f)
      requires CanonIs(bs, g, canon, was) && LookupIs(bs, g, lookup, was)
      modifies this`headHash, this`lookup, this`canon, this`current
      ensures ReorgTop(bs[tip], f) <= bs[tip].number
      ensures CanonIs(bs, g, canon, Anc(bs, g, tip, ReorgTop(bs[tip], f)))
      ensures LookupIs(bs, g, lookup, Anc(bs, g, tip, ReorgTop(bs[tip], f)))
    {
      ghost var cn, top := f.common.number, ReorgTop(bs[tip], f);
      WrittenStart(bs, g, was, tip, cn, canon, lookup);
      var addedTxs := WriteBranch(f, bs, g, was, tip);
      LookupEnd(bs, g, was, tip, cn, top, lookup, set tx | tx in f.deletedTxs && tx !in addedTxs);
      DropLookups(f.deletedTxs, addedTxs);
      var number := if |f.newChain| > 1 then f.newChain[1].number else f.common.number;
      assert number == top;
      CanonEnd(bs, g, was, tip, top, canon);
      CutCanon(number, Max(bs[was].number, top));
    }

    /**
     `reorg`: on success both indexes are exactly the chain below the new tip (or the tip's own, when it is an
     ancestor of the old head); on failure nothing but the block cache has changed.
     */
    method Reorg(tip: Block, ref: Ref) returns (r: Result<Fork, ChainError>)
      requires Valid() && Holds(genesis, Snapshot(), tip) && (ref == currentRef ==> tip == current)
      modifies this`headHash, this`lookup, this`canon, this`current, this`objects
      ensures r.Ok? <==> Meets(blocks, genesis, old(objects), old(current), currentRef, tip, ref)
      ensures objects == Walked(blocks, genesis, old(objects), old(current), currentRef, tip, ref)
      ensures r.Err? ==> r.error == InvalidNewChain && headHash == old(headHash) && current == old(current) && canon == old(canon) && lookup == old(lookup)
      ensures r.Ok? ==> ForkOk(blocks, genesis, old(current).hash, tip.hash, r.value)
      ensures r.Ok? ==> Base(tip, r.value) in blocks && (r.value.newChain != [] ==> tip.number > 0)
      ensures r.Ok? ==> CanonIs(blocks, genesis, canon, Base(tip, r.value)) && LookupIs(blocks, genesis, lookup, Base(tip, r.value))
    {
      r, objects := FindFork(blocks, genesis, objects, current, currentRef, tip, ref);
      if r.Ok? {
        Rewrite(r.value, blocks, genesis, current.hash, tip.hash);
        BaseIsTop(blocks, genesis, tip, r.value);
      }
    }

    /** `GetTd`: the cache, else the table, remembering the answer even when it is nil. */
    method GetTd(hash: Hash, number: nat) returns (td: Option<U256>)
      requires Valid()
      modifies this`tdCache
      ensures Valid() && (tdCache, td) == ReadTd(tds, old(tdCache), hash, number)
      ensures hash in blocks && number == blocks[hash].number ==>
                td == if Poisoned(old(tdCache), hash) then None else Some(tds[(hash, number)])
    {
      ReadTdKeeps(blocks, genesis, tds, tdCache, hash, number);
      if hash in blocks && number == blocks[hash].number {
        ReadTdIs(blocks, genesis, tds, tdCache, hash);
      }
      var l := Lookup(tdCache, hash);
      if l.Some? {
        tdCache := Touch(tdCache, hash);
        return l.value;
      }
      td := if (hash, number) in tds then Some(tds[(hash, number)]) else None;
      tdCache := Add(tdCache, hash, td, TD_CACHE_LIMIT);
    }

    /** `GetBlock`: the cached object whatever the number, a new object for a block stored under the number, or nothing. */
    method GetBlock(hash: Hash, number: nat) returns (ref: Option<Ref>)
      requires Valid()
      modifies this`objects
      ensures Valid() && objects == Asked(old(Snapshot()), hash, number)
      ensures ref.Some? ==> Lookup(objects.cache, hash) == ref
      ensures var cached := Lookup(old(objects.cache), hash);
              ref == if hash == ZERO then None
                     else if cached.Some? then cached
                     else if hash in blocks && blocks[hash].number == number then Some(old(objects.next)) else None
    {
      PerformKeeps(genesis, Snapshot(), AskBlock(hash, number));
      FetchFound(objects, hash);
      if hash == ZERO || (Lookup(objects.cache, hash).None? && ReadBlock(blocks, hash, number).None?) {
        return None;
      }
      var f := Fetch(objects, hash);
      objects := f.0;
      ref := Some(f.1);
    }

    /** The write transaction: total difficulty and block, or no change when the parent is unknown. */
    method StoreBlock(b: Block) returns (ok: bool)
      modifies this`blocks, this`tds, this`tdCache
      ensures ok <==> ParentKnown(old(Snapshot()), b)
      ensures Snapshot() == if ok then Stored(old(Snapshot()), b) else old(Snapshot())
    {
      var key := (b.parent, Pred(b.number));
      ok := key in tds;
      if ok {
        var td := AddTd(tds[key], b.difficulty);
        tds := tds[(b.hash, b.number) := td];
        blocks := blocks[b.hash := b];
        tdCache := Add(tdCache, b.hash, Some(td), TD_CACHE_LIMIT);
      }
    }

    /** `writeHeadBlock` of the new head: both indexes become exactly its chain. */
    method SetHead(b: Block, ref: Ref, ghost bs: Blocks, ghost g: Hash, ghost below: Hash)
      requires StoreOk(bs, g) && b.hash in bs && bs[b.hash] == b && below in bs && forall k | k in bs :: TxsOnce(bs, g, k)
      requires below == b.hash || (b.number > 0 && below == b.parent)
      requires CanonIs(bs, g, canon, below) && LookupIs(bs, g, lookup, below)
      modifies this`headHash, this`lookup, this`canon, this`current, this`currentRef
      ensures (canon, lookup) == IndexOf(bs, g, b.hash) && headHash == b.hash && current == b && currentRef == ref
    {
      HeadIndex(bs, g, canon, lookup, b, below);
      WriteHeadBlock(b);
      currentRef := ref;
    }

    /** The head change by `reorg` and `writeHeadBlock`. */
    method ReorgTo(b: Block, ref: Ref) returns (r: Result<(), ChainError>)
      requires Valid() && Holds(genesis, Snapshot(), b) && (ref == currentRef ==> b == current)
      modifies this`headHash, this`lookup, this`canon, this`current, this`currentRef, this`objects
      ensures r == if Meets(blocks, genesis, old(objects), old(current), old(currentRef), b, ref) then Ok(()) else Err(InvalidNewChain)
      ensures objects == Walked(blocks, genesis, old(objects), old(current), old(currentRef), b, ref)
      ensures r.Ok? ==> (canon, lookup) == IndexOf(blocks, genesis, b.hash) && headHash == b.hash && current == b && currentRef == ref
      ensures r.Err? ==> headHash == old(headHash) && current == old(current) && currentRef == old(currentRef) && canon == old(canon) && lookup == old(lookup)
    {
      var f :- Reorg(b, ref);
      SetHead(b, ref, blocks, genesis, Base(b, f));
      r := Ok(());
    }

    /** The head change of `writeBlockWithState`: `reorg` unless the block extends the head, then `writeHeadBlock`. */
    method MoveHead(b: Block, ref: Ref) returns (r: Result<(), ChainError>)
      requires Valid() && Holds(genesis, Snapshot(), b) && (ref == currentRef ==> b == current)
      modifies this`headHash, this`lookup, this`canon, this`current, this`currentRef, this`objects
      ensures r == if Moves(genesis, old(Snapshot()), b, ref) then Ok(()) else Err(InvalidNewChain)
      ensures r.Ok? ==> Snapshot() == HeadMoved(genesis, old(Snapshot()), b, ref)
      ensures r.Err? ==> Snapshot() == old(Snapshot()).(objects := Searched(genesis, old(Snapshot()), b, ref))
    {
      if b.parent != current.hash {
        r := ReorgTo(b, ref);
      } else {
        assert BlockOk(blocks, genesis, b.hash);
        SetHead(b, ref, blocks, genesis, b.parent);
        r := Ok(());
      }
    }

    /** The second half of `writeBlockWithState`: read both total difficulties, compare them and move the head or not. */
    method ChooseHead(b: Block, ref: Ref, choice: Choice) returns (r: WriteResult)
      requires Ready(genesis, Snapshot(), b, ref) && (ref == currentRef ==> b == current)
      modifies this`headHash, this`lookup, this`canon, this`current, this`currentRef, this`objects, this`tdCache
      ensures (Snapshot(), r) == Chosen(genesis, old(Snapshot()), b, ref, choice)
    {
      var localTd := GetTd(current.hash, current.number);
      var externTd := GetTd(b.hash, b.number);
      if localTd.None? || externTd.None? {
        return Err(NilTd);
      }
      if !ReorgNeeded(localTd.value, externTd.value, current.number, b.number, choice) {
        return Ok(Side);
      }
      var _ :- MoveHead(b, ref);
      r := Ok(Canonical);
    }

    /** Everything in `writeBlockWithState` but the future blocks. */
    method Insert(b: Block, obj: Option<Ref>, choice: Choice) returns (r: WriteResult)
      requires Valid() && WriteOk(genesis, Snapshot(), b, obj)
      modifies this`blocks, this`tds, this`canon, this`lookup, this`headHash, this`current, this`currentRef, this`tdCache, this`objects
      ensures (Snapshot(), r) == Written(genesis, old(Snapshot()), b, obj, choice)
    {
      ghost var c := Snapshot();
      if ParentKnown(c, b) {
        StoredReady(genesis, c, b, obj);
      }
      var given := Given(objects, obj);
      objects := given.0;
      var ok := StoreBlock(b);
      if !ok {
        return Err(UnknownAncestor);
      }
      assert Snapshot() == Stored(c.(objects := given.0), b);
      r := ChooseHead(b, given.1, choice);
    }

    /**
     `writeBlockWithState`: exactly `Written`. `obj` is the object the block comes as, if that is one the chain has
     handed out, and `choice` holds the local preference and the coin of the fork choice.
     */
    method WriteBlockWithState(b: Block, obj: Option<Ref>, choice: Choice) returns (r: WriteResult)
      requires Valid() && WriteOk(genesis, Snapshot(), b, obj)
      modifies this
      ensures (Snapshot(), r) == Written(genesis, old(Snapshot()), b, obj, choice)
      ensures WriteGood(genesis, old(Snapshot()), b, obj, choice, Snapshot(), r)
      ensures futureBlocks == if r.Ok? then old(futureBlocks) - {b.hash} else old(futureBlocks)
    {
      ghost var c := Snapshot();
      r := Insert(b, obj, choice);
      WrittenGood(genesis, c, b, obj, choice);
      if r.Ok? {
        futureBlocks := futureBlocks - {b.hash};
      }
    }
  }
}
