/** The walk of `reorg` (internal/blockchain.go) from the old and the new head to their common ancestor. */
module ForkWalk {
  import opened Wrappers
  import opened Bytes
  import opened ChainStore
  import opened ReorgSteps
  import opened BlockObjects

  /** The errors of a block write; the last one is the panic on a total difficulty that is nil. */
  datatype ChainError = UnknownAncestor | InvalidNewChain | NilTd

  /** What the walk of `reorg` finds: the common ancestor, the new branch from the tip down, the old branch's transactions. */
  datatype Fork = Fork(common: Block, newChain: seq<Block>, deletedTxs: seq<Tx>)

  /** `n - 1` in 64-bit arithmetic. */
  function Pred(n: nat): nat {
    if n == 0 then TWO_64 - 1 else n - 1
  }

  /** `GetBlock` and `rawdb.ReadBlock`. */
  function ReadBlock(bs: Blocks, hash: Hash, number: nat): Option<Block> {
    if hash != ZERO && hash in bs && bs[hash].number == number then Some(bs[hash]) else None
  }

  ghost predicate ForkOk(bs: Blocks, g: Hash, was: Hash, tip: Hash, f: Fork)
    requires StoreOk(bs, g) && was in bs && tip in bs
  {
    var cn := f.common.number;
    && cn <= bs[was].number && cn <= bs[tip].number
    && f.common.hash == Anc(bs, g, was, cn) == Anc(bs, g, tip, cn)
    && IsBranch(bs, g, tip, cn, f.newChain)
    && BranchTxs(bs, g, was, cn, f.deletedTxs)
  }

  lemma BranchDown(bs: Blocks, g: Hash, h: Hash, n: nat)
    requires StoreOk(bs, g) && h in bs && 0 < n <= bs[h].number
    ensures forall tx :: InBranch(bs, g, h, n - 1, bs[h].number, tx)
                     <==> InBranch(bs, g, h, n, bs[h].number, tx) || tx in bs[Anc(bs, g, h, n)].txs
  {
    forall tx | tx in bs[Anc(bs, g, h, n)].txs
      ensures InBranch(bs, g, h, n - 1, bs[h].number, tx)
    {
      assert TxAt(bs, g, h, n, tx);
    }
  }

  lemma {:induction false} AncParent(bs: Blocks, g: Hash, h: Hash, n: nat)
    requires StoreOk(bs, g) && h in bs && 0 < n <= bs[h].number
    ensures bs[Anc(bs, g, h, n)].parent == Anc(bs, g, h, n - 1)
    decreases bs[h].number
  {
    assert BlockOk(bs, g, h);
    if n < bs[h].number {
      AncParent(bs, g, bs[h].parent, n);
    }
  }

  /** The blocks of the chain of `tip` from its head down to just above height `n`. */
  ghost predicate IsBranch(bs: Blocks, g: Hash, tip: Hash, n: nat, chain: seq<Block>)
    requires StoreOk(bs, g) && tip in bs && n <= bs[tip].number
  {
    |chain| == bs[tip].number - n && forall i | 0 <= i < |chain| :: chain[i] == bs[Anc(bs, g, tip, bs[tip].number - i)]
  }

  /** The transactions of the chain of `h` above height `n`. */
  ghost predicate BranchTxs(bs: Blocks, g: Hash, h: Hash, n: nat, txs: seq<Tx>)
    requires StoreOk(bs, g) && h in bs
  {
    forall tx :: tx in txs <==> InBranch(bs, g, h, n, bs[h].number, tx)
  }

  lemma NextTxs(bs: Blocks, g: Hash, h: Hash, n: nat, txs: seq<Tx>)
    requires StoreOk(bs, g) && h in bs && 0 < n <= bs[h].number && BranchTxs(bs, g, h, n, txs)
    ensures BranchTxs(bs, g, h, n - 1, txs + bs[Anc(bs, g, h, n)].txs)
    ensures ReadBlock(bs, bs[Anc(bs, g, h, n)].parent, n - 1) == Some(bs[Anc(bs, g, h, n - 1)])
  {
    AncParent(bs, g, h, n);
    BranchDown(bs, g, h, n);
  }

  /** `GetBlock` of the parent. */
  method GetParent(bs: Blocks, o: Objects, b: Block) returns (parent: Option<Block>, o': Objects, ref: Ref)
    ensures parent == ReadBlock(bs, b.parent, Pred(b.number))
    ensures if parent.Some? then (o', ref) == Fetch(o, b.parent) else o' == o
  {
    o', ref, parent := o, 0, ReadBlock(bs, b.parent, Pred(b.number));
    if parent.Some? {
      var f := Fetch(o, b.parent);
      o', ref := f.0, f.1;
    }
  }

  /** The old chain is longer: step it down to `number`, gathering its transactions. */
  method LowerOld(bs: Blocks, ghost g: Hash, o: Objects, was: Block, number: nat)
    returns (oldBlock: Block, deletedTxs: seq<Tx>, o': Objects)
    requires StoreOk(bs, g) && was.hash in bs && bs[was.hash] == was && number <= was.number
    ensures oldBlock == bs[Anc(bs, g, was.hash, number)] && BranchTxs(bs, g, was.hash, number, deletedTxs)
    ensures o' == FetchDown(bs, g, o, was.hash, number)
  {
    oldBlock, deletedTxs, o' := was, [], o;
    while oldBlock.number != number
      invariant number <= oldBlock.number <= was.number && oldBlock == bs[Anc(bs, g, was.hash, oldBlock.number)]
      invariant BranchTxs(bs, g, was.hash, oldBlock.number, deletedTxs)
      invariant o' == FetchDown(bs, g, o, was.hash, oldBlock.number)
      decreases oldBlock.number
    {
      NextTxs(bs, g, was.hash, oldBlock.number, deletedTxs);
      AncParent(bs, g, was.hash, oldBlock.number);
      deletedTxs := deletedTxs + oldBlock.txs;
      var parent, o1, _ := GetParent(bs, o', oldBlock);
      oldBlock, o' := parent.value, o1;
    }
  }

  /** Above height `lo` the walk does not have the object `r` in hand. */
  ghost predicate Missed(bs: Blocks, g: Hash, o: Objects, h: Hash, hr: Ref, r: Ref, lo: int)
    requires StoreOk(bs, g) && h in bs
  {
    forall n: nat | lo < n <= bs[h].number :: RefAt(bs, g, o, h, hr, n) != r
  }

  /** One step of the walk below height `n`, or off the chain from genesis. */
  lemma LowerStep(bs: Blocks, g: Hash, o: Objects, h: Hash, hr: Ref, r: Ref, n: nat)
    requires StoreOk(bs, g) && h in bs && n <= bs[h].number && Missed(bs, g, o, h, hr, r, n) && RefAt(bs, g, o, h, hr, n) != r
    ensures Missed(bs, g, o, h, hr, r, n - 1)
    ensures var b := bs[Anc(bs, g, h, n)];
            if n == 0 then ReadBlock(bs, b.parent, Pred(n)).None?
            else
              && ReadBlock(bs, b.parent, Pred(n)) == Some(bs[Anc(bs, g, h, n - 1)]) && b.parent == Anc(bs, g, h, n - 1)
              && Fetch(FetchDown(bs, g, o, h, n), b.parent) == (FetchDown(bs, g, o, h, n - 1), RefAt(bs, g, o, h, hr, n - 1))
  {
    if n > 0 {
      AncParent(bs, g, h, n);
    } else {
      AncZero(bs, g, h);
    }
  }

  /**
   The new chain is at least as long: step it down until it is at the object of the old block, whose number pointer
   no other object has. The walk runs past genesis when it does not come upon that object.
   */
  method LowerNew(bs: Blocks, ghost g: Hash, o: Objects, was: Block, wasRef: Ref, tip: Block, tipRef: Ref)
    returns (newBlock: Option<Block>, newChain: seq<Block>, o': Objects)
    requires StoreOk(bs, g) && tip.hash in bs && bs[tip.hash] == tip && was.hash in bs && bs[was.hash] == was && was.number <= tip.number
    requires CacheOk(o) && ObjectOf(o, was.hash, wasRef) && (tipRef == wasRef ==> tip == was)
    ensures newBlock.Some? <==> RefAt(bs, g, o, tip.hash, tipRef, was.number) == wasRef
    ensures newBlock.Some? ==> newBlock.value == bs[Anc(bs, g, tip.hash, was.number)] && IsBranch(bs, g, tip.hash, was.number, newChain)
    ensures o' == FetchDown(bs, g, o, tip.hash, if newBlock.Some? then was.number else 0)
  {
    newBlock, newChain, o' := Some(tip), [], o;
    var ref := tipRef;
    ghost var lo: int := tip.number;
    while newBlock.Some? && ref != wasRef
      invariant -1 <= lo <= tip.number && (newBlock.Some? <==> lo >= 0)
      invariant lo >= 0 ==> newBlock.value == bs[Anc(bs, g, tip.hash, lo)] && IsBranch(bs, g, tip.hash, lo, newChain)
      invariant lo >= 0 ==> ref == RefAt(bs, g, o, tip.hash, tipRef, lo)
      invariant o' == FetchDown(bs, g, o, tip.hash, if lo >= 0 then lo else 0)
      invariant Missed(bs, g, o, tip.hash, tipRef, wasRef, lo)
      decreases lo
    {
      var b := newBlock.value;
      LowerStep(bs, g, o, tip.hash, tipRef, wasRef, lo);
      newChain := newChain + [b];
      newBlock, o', ref := GetParent(bs, o', b);
      lo := lo - 1;
    }
    if newBlock.Some? {
      RefIsBlock(bs, g, o, tip.hash, tipRef, lo, was.hash, wasRef);
    }
  }

  /** Both sides at the same number: step both down until the hashes agree. */
  method Meet(bs: Blocks, ghost g: Hash, ghost was: Hash, ghost tip: Hash, oldTop: Block, newTop: Block, newAbove: seq<Block>, txsAbove: seq<Tx>)
    returns (f: Fork)
    requires StoreOk(bs, g) && was in bs && tip in bs
    requires oldTop.number == newTop.number && oldTop.number <= bs[was].number && oldTop.number <= bs[tip].number
    requires oldTop == bs[Anc(bs, g, was, oldTop.number)] && newTop == bs[Anc(bs, g, tip, newTop.number)]
    requires BranchTxs(bs, g, was, oldTop.number, txsAbove) && IsBranch(bs, g, tip, newTop.number, newAbove)
    ensures ForkOk(bs, g, was, tip, f)
  {
    var oldBlock, newBlock, newChain, deletedTxs := oldTop, newTop, newAbove, txsAbove;
    while oldBlock.hash != newBlock.hash
      invariant oldBlock.number == newBlock.number && oldBlock.number <= bs[was].number && oldBlock.number <= bs[tip].number
      invariant oldBlock == bs[Anc(bs, g, was, oldBlock.number)] && newBlock == bs[Anc(bs, g, tip, newBlock.number)]
      invariant BranchTxs(bs, g, was, oldBlock.number, deletedTxs) && IsBranch(bs, g, tip, newBlock.number, newChain)
      decreases oldBlock.number
    {
      AncZero(bs, g, was);
      AncZero(bs, g, tip);
      NextTxs(bs, g, was, oldBlock.number, deletedTxs);
      AncParent(bs, g, tip, newBlock.number);
      deletedTxs := deletedTxs + oldBlock.txs;
      newChain := newChain + [newBlock];
      // A closed store holds both parents, so neither "invalid chain" error of this loop can occur.
      oldBlock := ReadBlock(bs, oldBlock.parent, oldBlock.number - 1).value;
      newBlock := ReadBlock(bs, newBlock.parent, newBlock.number - 1).value;
    }
    f := Fork(oldBlock, newChain, deletedTxs);
  }

  /** Whether the walk finds the fork: the new chain is shorter, or comes upon the object of the old head. */
  ghost predicate Meets(bs: Blocks, g: Hash, o: Objects, was: Block, wasRef: Ref, tip: Block, tipRef: Ref)
    requires StoreOk(bs, g) && tip.hash in bs && bs[tip.hash] == tip
  {
    was.number > tip.number || RefAt(bs, g, o, tip.hash, tipRef, was.number) == wasRef
  }

  /** The block cache after the walk. */
  ghost function Walked(bs: Blocks, g: Hash, o: Objects, was: Block, wasRef: Ref, tip: Block, tipRef: Ref): Objects
    requires StoreOk(bs, g) && tip.hash in bs && bs[tip.hash] == tip && was.hash in bs && bs[was.hash] == was
  {
    if was.number > tip.number then FetchDown(bs, g, o, was.hash, tip.number)
    else FetchDown(bs, g, o, tip.hash, if Meets(bs, g, o, was, wasRef, tip, tipRef) then was.number else 0)
  }

  /** The walk of `reorg`: fails exactly when the new chain is not shorter and does not come upon the old head's object. */
  method FindFork(bs: Blocks, ghost g: Hash, o: Objects, was: Block, wasRef: Ref, tip: Block, tipRef: Ref)
    returns (r: Result<Fork, ChainError>, o': Objects)
    requires StoreOk(bs, g) && was.hash in bs && bs[was.hash] == was && tip.hash in bs && bs[tip.hash] == tip
    requires CacheOk(o) && ObjectOf(o, was.hash, wasRef) && (tipRef == wasRef ==> tip == was)
    ensures r.Ok? <==> Meets(bs, g, o, was, wasRef, tip, tipRef)
    ensures r.Ok? ==> ForkOk(bs, g, was.hash, tip.hash, r.value)
    ensures r.Err? ==> r.error == InvalidNewChain
    ensures o' == Walked(bs, g, o, was, wasRef, tip, tipRef)
  {
    var oldBlock, newBlock := was, tip;
    var newChain: seq<Block>, deletedTxs: seq<Tx> := [], [];
    if oldBlock.number > newBlock.number {
      oldBlock, deletedTxs, o' := LowerOld(bs, g, o, was, newBlock.number);
    } else {
      var below;
      below, newChain, o' := LowerNew(bs, g, o, was, wasRef, tip, tipRef);
      if below.None? {
        return Err(InvalidNewChain), o';
      }
      newBlock := below.value;
    }
    var f := Meet(bs, g, was.hash, tip.hash, oldBlock, newBlock, newChain, deletedTxs);
    r := Ok(f);
  }

  /** `types.HashDifference`. */
  method HashDifference(a: seq<Tx>, b: seq<Tx>) returns (keep: seq<Tx>)
    ensures forall tx :: tx in keep <==> tx in a && tx !in b
  {
    keep := [];
    var remove := set tx | tx in b;
    for i := 0 to |a|
      invariant forall tx :: tx in keep <==> tx in a[..i] && tx !in b
    {
      if a[i] !in remove {
        keep := keep + [a[i]];
      }
    }
  }

  /** The height both indexes describe after `reorg`: the tip's parent, or the tip when it is an old ancestor. */
  function ReorgTop(tip: Block, f: Fork): nat {
    if f.newChain == [] || tip.number == 0 then tip.number else tip.number - 1
  }
}
