/** The block store as a tree of parent links, and the indexes that describe one branch of it. */
module ChainStore {
  import opened Bytes

  type Hash = nat
  type Tx = nat

  /** `types.Hash{}`: the parent of the genesis block; no block has it. */
  const ZERO: Hash := 0

  datatype Block = Block(hash: Hash, number: nat, parent: Hash, difficulty: U256, txs: seq<Tx>)

  type Blocks = map<Hash, Block>

  /** A stored block is the genesis block or sits on a stored parent one number below. */
  predicate BlockOk(bs: Blocks, g: Hash, h: Hash) {
    && h in bs && bs[h].hash == h
    && (h == g || (bs[h].number > 0 && bs[h].parent in bs && bs[bs[h].parent].number == bs[h].number - 1))
  }

  /** Every stored block leads back to the genesis block, one number at a time. */
  predicate StoreOk(bs: Blocks, g: Hash) {
    && ZERO !in bs && g in bs && bs[g].number == 0 && bs[g].parent == ZERO && bs[g].txs == []
    && forall h {:trigger BlockOk(bs, g, h)} | h in bs :: BlockOk(bs, g, h)
  }

  /** The ancestor of `h` at height `n`. */
  function Anc(bs: Blocks, g: Hash, h: Hash, n: nat): (a: Hash)
    requires StoreOk(bs, g) && h in bs && n <= bs[h].number
    ensures a in bs && bs[a].number == n && BlockOk(bs, g, a)
    decreases bs[h].number
  {
    assert BlockOk(bs, g, h);
    if bs[h].number == n then h else Anc(bs, g, bs[h].parent, n)
  }

  lemma {:induction false} AncAnc(bs: Blocks, g: Hash, h: Hash, m: nat, n: nat)
    requires StoreOk(bs, g) && h in bs && n <= m <= bs[h].number
    ensures Anc(bs, g, Anc(bs, g, h, m), n) == Anc(bs, g, h, n)
    decreases bs[h].number
  {
    assert BlockOk(bs, g, h);
    if m < bs[h].number {
      AncAnc(bs, g, bs[h].parent, m, n);
    }
  }

  lemma {:induction false} AncZero(bs: Blocks, g: Hash, h: Hash)
    requires StoreOk(bs, g) && h in bs
    ensures Anc(bs, g, h, 0) == g
    decreases bs[h].number
  {
    assert BlockOk(bs, g, h);
    if bs[h].number > 0 {
      AncZero(bs, g, bs[h].parent);
    }
  }

  /** Storing a new block leaves every old chain as it was. */
  lemma {:induction false} AncGrow(bs: Blocks, bs': Blocks, g: Hash, h: Hash, n: nat)
    requires StoreOk(bs, g) && StoreOk(bs', g) && h in bs && n <= bs[h].number
    requires forall k | k in bs :: k in bs' && bs'[k] == bs[k]
    ensures Anc(bs', g, h, n) == Anc(bs, g, h, n)
    decreases bs[h].number
  {
    assert BlockOk(bs, g, h);
    if n < bs[h].number {
      AncGrow(bs, bs', g, bs[h].parent, n);
    }
  }

  /** `tx` is in the block at height `n` of the chain that ends in `h`. */
  predicate TxAt(bs: Blocks, g: Hash, h: Hash, n: int, tx: Tx)
    requires StoreOk(bs, g) && h in bs
  {
    0 <= n <= bs[h].number && tx in bs[Anc(bs, g, h, n)].txs
  }

  /** A transaction occurs at one height of a chain at most (replay protection). */
  ghost predicate TxsOnce(bs: Blocks, g: Hash, h: Hash)
    requires StoreOk(bs, g) && h in bs
  {
    forall n, m, tx | TxAt(bs, g, h, n, tx) && TxAt(bs, g, h, m, tx) :: n == m
  }

  /** The number index has an entry for each height up to `hi` and for no other. */
  ghost predicate FilledTo(canon: map<nat, Hash>, hi: nat) {
    forall n: nat :: n in canon <==> n <= hi
  }

  function Max(a: nat, b: nat): nat {
    if a < b then b else a
  }

  lemma FilledPut(canon: map<nat, Hash>, hi: nat, n: nat, h: Hash)
    requires FilledTo(canon, hi) && n <= hi + 1
    ensures FilledTo(canon[n := h], Max(hi, n))
  {
  }

  /** The number index is exactly the chain of `h`: contiguous from genesis, linked by parents, nothing above. */
  ghost predicate CanonIs(bs: Blocks, g: Hash, canon: map<nat, Hash>, h: Hash)
    requires StoreOk(bs, g) && h in bs
  {
    && FilledTo(canon, bs[h].number)
    && (forall n | n in canon :: canon[n] == Anc(bs, g, h, n))
  }

  /** The transaction index maps exactly the transactions of the chain of `h` to their heights. */
  ghost predicate LookupIs(bs: Blocks, g: Hash, lookup: map<Tx, nat>, h: Hash)
    requires StoreOk(bs, g) && h in bs
  {
    && (forall tx | tx in lookup :: TxAt(bs, g, h, lookup[tx], tx))
    && (forall n, tx | TxAt(bs, g, h, n, tx) :: tx in lookup && lookup[tx] == n)
  }

  /** The sum of difficulties back to genesis, which counts zero. */
  function Work(bs: Blocks, g: Hash, h: Hash): nat
    requires StoreOk(bs, g) && h in bs
    decreases bs[h].number
  {
    assert BlockOk(bs, g, h);
    if bs[h].number == 0 then 0 else Work(bs, g, bs[h].parent) + bs[h].difficulty
  }

  function WriteLookup(lookup: map<Tx, nat>, b: Block): map<Tx, nat> {
    lookup + map tx | tx in b.txs :: b.number
  }

  lemma LookupPut(lookup: map<Tx, nat>, b: Block, i: nat)
    requires i < |b.txs|
    ensures WriteLookup(lookup, b.(txs := b.txs[..i]))[b.txs[i] := b.number] == WriteLookup(lookup, b.(txs := b.txs[..i + 1]))
  {
    assert forall tx :: tx in b.txs[..i + 1] <==> tx in b.txs[..i] || tx == b.txs[i];
  }

  /** Appending a child to the head extends both indexes to the child's chain. */
  lemma Extend(bs: Blocks, g: Hash, canon: map<nat, Hash>, lookup: map<Tx, nat>, h: Hash)
    requires StoreOk(bs, g) && BlockOk(bs, g, h) && bs[h].number > 0 && TxsOnce(bs, g, h)
    requires CanonIs(bs, g, canon, bs[h].parent) && LookupIs(bs, g, lookup, bs[h].parent)
    ensures CanonIs(bs, g, canon[bs[h].number := h], h)
    ensures LookupIs(bs, g, WriteLookup(lookup, bs[h]), h)
  {
    var p, l' := bs[h].parent, WriteLookup(lookup, bs[h]);
    FilledPut(canon, bs[p].number, bs[h].number, h);
    forall n, tx | TxAt(bs, g, h, n, tx)
      ensures tx in l' && l'[tx] == n
    {
      assert n < bs[h].number ==> TxAt(bs, g, p, n, tx);
      assert tx in bs[h].txs ==> TxAt(bs, g, h, bs[h].number, tx);
    }
    forall tx | tx in l'
      ensures TxAt(bs, g, h, l'[tx], tx)
    {
      assert tx !in bs[h].txs ==> TxAt(bs, g, p, lookup[tx], tx);
    }
  }

  /** Writing the head again changes nothing. */
  lemma Rewrite(bs: Blocks, g: Hash, canon: map<nat, Hash>, lookup: map<Tx, nat>, h: Hash)
    requires StoreOk(bs, g) && h in bs && CanonIs(bs, g, canon, h) && LookupIs(bs, g, lookup, h)
    ensures canon[bs[h].number := h] == canon && WriteLookup(lookup, bs[h]) == lookup
  {
    forall tx | tx in bs[h].txs
      ensures tx in lookup && lookup[tx] == bs[h].number
    {
      assert TxAt(bs, g, h, bs[h].number, tx);
    }
  }

  /** `b` may be added: new, a child of a stored block, repeating no transaction of its chain. */
  ghost predicate Fits(bs: Blocks, g: Hash, b: Block)
    requires StoreOk(bs, g)
  {
    && b.hash != ZERO && b.hash !in bs && b.parent in bs && b.number == bs[b.parent].number + 1
    && forall n, tx | TxAt(bs, g, b.parent, n, tx) :: tx !in b.txs
  }

  lemma GrownStore(bs: Blocks, bs': Blocks, g: Hash, b: Block)
    requires StoreOk(bs, g) && Fits(bs, g, b) && bs' == bs[b.hash := b]
    ensures StoreOk(bs', g)
  {
    forall h | h in bs'
      ensures BlockOk(bs', g, h)
    {
      assert h in bs ==> BlockOk(bs, g, h);
    }
  }

  ghost predicate Grown(bs: Blocks, bs': Blocks, g: Hash, b: Block) {
    StoreOk(bs, g) && Fits(bs, g, b) && bs' == bs[b.hash := b] && StoreOk(bs', g)
  }

  /** Old chains carry the same transactions in the grown store. */
  lemma TxAtGrow(bs: Blocks, bs': Blocks, g: Hash, b: Block, h: Hash)
    requires Grown(bs, bs', g, b) && h in bs
    ensures forall n: nat | n <= bs[h].number :: Anc(bs', g, h, n) == Anc(bs, g, h, n)
    ensures forall n, tx :: TxAt(bs', g, h, n, tx) <==> TxAt(bs, g, h, n, tx)
  {
    forall n: nat | n <= bs[h].number
      ensures Anc(bs', g, h, n) == Anc(bs, g, h, n)
    {
      AncGrow(bs, bs', g, h, n);
    }
  }

  lemma TxsOnceGrow(bs: Blocks, bs': Blocks, g: Hash, b: Block, h: Hash)
    requires Grown(bs, bs', g, b) && h in bs'
    requires TxsOnce(bs, g, if h == b.hash then b.parent else h)
    ensures TxsOnce(bs', g, h)
  {
    if h in bs {
      TxAtGrow(bs, bs', g, b, h);
      forall n, m, tx | TxAt(bs', g, h, n, tx) && TxAt(bs', g, h, m, tx)
        ensures n == m
      {
        assert TxAt(bs, g, h, n, tx) && TxAt(bs, g, h, m, tx);
      }
    } else {
      TxAtGrow(bs, bs', g, b, b.parent);
      forall n, tx | TxAt(bs', g, h, n, tx)
        ensures n == b.number <==> tx in b.txs
        ensures n != b.number ==> TxAt(bs, g, b.parent, n, tx)
      {
        assert n != b.number ==> TxAt(bs', g, b.parent, n, tx);
      }
    }
  }

  lemma IndexGrow(bs: Blocks, bs': Blocks, g: Hash, b: Block, canon: map<nat, Hash>, lookup: map<Tx, nat>, h: Hash)
    requires Grown(bs, bs', g, b) && h in bs
    requires CanonIs(bs, g, canon, h) && LookupIs(bs, g, lookup, h)
    ensures CanonIs(bs', g, canon, h) && LookupIs(bs', g, lookup, h)
  {
    TxAtGrow(bs, bs', g, b, h);
    forall n, tx | TxAt(bs', g, h, n, tx)
      ensures tx in lookup && lookup[tx] == n
    {
      assert TxAt(bs, g, h, n, tx);
    }
  }
}
