/** The indexes in the middle of a reorganisation, and what each part of `reorg` does to them. */
module ReorgSteps {
  import opened ChainStore

  /** Two chains that agree up to height `cn`. */
  ghost predicate Forked(bs: Blocks, g: Hash, was: Hash, tip: Hash, cn: nat) {
    && StoreOk(bs, g) && was in bs && tip in bs
    && cn <= bs[was].number && cn <= bs[tip].number
    && Anc(bs, g, was, cn) == Anc(bs, g, tip, cn)
    && TxsOnce(bs, g, was) && TxsOnce(bs, g, tip)
  }

  /** `tx` is on the branch of `h` above height `cn` and not above `top`. */
  ghost predicate InBranch(bs: Blocks, g: Hash, h: Hash, cn: nat, top: int, tx: Tx)
    requires StoreOk(bs, g) && h in bs
  {
    exists n :: cn < n <= top && TxAt(bs, g, h, n, tx)
  }

  /** The new branch is in the number index up to height `top`; above it the index still shows the old chain. */
  ghost predicate CanonWritten(bs: Blocks, g: Hash, was: Hash, tip: Hash, top: nat, canon: map<nat, Hash>)
    requires StoreOk(bs, g) && was in bs && tip in bs && top <= bs[tip].number
  {
    && FilledTo(canon, Max(bs[was].number, top))
    && (forall n: nat | n in canon && n <= top :: canon[n] == Anc(bs, g, tip, n))
  }

  /** The new branch's transactions up to `top` are looked up right; other entries are leftovers of the old branch. */
  ghost predicate LookupWritten(bs: Blocks, g: Hash, was: Hash, tip: Hash, cn: nat, top: nat, lookup: map<Tx, nat>)
    requires Forked(bs, g, was, tip, cn) && cn <= top <= bs[tip].number
  {
    && (forall n, tx | n <= top && TxAt(bs, g, tip, n, tx) :: tx in lookup && lookup[tx] == n)
    && (forall tx | tx in lookup ::
          (lookup[tx] <= top && TxAt(bs, g, tip, lookup[tx], tx)) || (cn < lookup[tx] && TxAt(bs, g, was, lookup[tx], tx)))
  }

  /** What the writing loop of `reorg` has done when the new branch is canonical up to `top`. */
  ghost predicate BranchWritten(bs: Blocks, g: Hash, was: Hash, tip: Hash, cn: nat, top: nat, canon: map<nat, Hash>, lookup: map<Tx, nat>,
                                added: seq<Tx>)
    requires Forked(bs, g, was, tip, cn) && cn <= top <= bs[tip].number
  {
    && CanonWritten(bs, g, was, tip, top, canon)
    && LookupWritten(bs, g, was, tip, cn, top, lookup)
    && forall tx :: tx in added <==> InBranch(bs, g, tip, cn, top, tx)
  }

  /** Below the fork both chains carry the same transactions. */
  lemma SharedBelow(bs: Blocks, g: Hash, was: Hash, tip: Hash, cn: nat, n: nat)
    requires Forked(bs, g, was, tip, cn) && n <= cn
    ensures Anc(bs, g, was, n) == Anc(bs, g, tip, n)
    ensures forall tx :: TxAt(bs, g, was, n, tx) <==> TxAt(bs, g, tip, n, tx)
  {
    AncAnc(bs, g, was, cn, n);
    AncAnc(bs, g, tip, cn, n);
  }

  lemma WrittenStart(bs: Blocks, g: Hash, was: Hash, tip: Hash, cn: nat, canon: map<nat, Hash>, lookup: map<Tx, nat>)
    requires Forked(bs, g, was, tip, cn)
    requires CanonIs(bs, g, canon, was) && LookupIs(bs, g, lookup, was)
    ensures BranchWritten(bs, g, was, tip, cn, cn, canon, lookup, [])
  {
    forall n: nat | n <= cn
      ensures Anc(bs, g, was, n) == Anc(bs, g, tip, n) && forall tx :: TxAt(bs, g, was, n, tx) <==> TxAt(bs, g, tip, n, tx)
    {
      SharedBelow(bs, g, was, tip, cn, n);
    }
    forall n, tx | n <= cn && TxAt(bs, g, tip, n, tx)
      ensures tx in lookup && lookup[tx] == n
    {
      assert TxAt(bs, g, was, n, tx);
    }
    forall tx | tx in lookup
      ensures TxAt(bs, g, was, lookup[tx], tx)
      ensures lookup[tx] <= cn ==> TxAt(bs, g, tip, lookup[tx], tx)
    {
    }
  }

  /** `writeHeadBlock` on the next block of the new branch. */
  lemma CanonStep(bs: Blocks, g: Hash, was: Hash, tip: Hash, top: nat, canon: map<nat, Hash>, b: Block)
    requires StoreOk(bs, g) && was in bs && tip in bs && top < bs[tip].number
    requires CanonWritten(bs, g, was, tip, top, canon) && b == bs[Anc(bs, g, tip, top + 1)]
    ensures CanonWritten(bs, g, was, tip, top + 1, canon[b.number := b.hash])
  {
    FilledPut(canon, Max(bs[was].number, top), top + 1, b.hash);
  }

  lemma LookupStep(bs: Blocks, g: Hash, was: Hash, tip: Hash, cn: nat, top: nat, lookup: map<Tx, nat>, b: Block)
    requires Forked(bs, g, was, tip, cn) && cn <= top < bs[tip].number
    requires LookupWritten(bs, g, was, tip, cn, top, lookup) && b == bs[Anc(bs, g, tip, top + 1)]
    ensures LookupWritten(bs, g, was, tip, cn, top + 1, WriteLookup(lookup, b))
  {
    var l' := WriteLookup(lookup, b);
    forall n, tx | n <= top + 1 && TxAt(bs, g, tip, n, tx)
      ensures tx in l' && l'[tx] == n
    {
      if tx in b.txs {
        assert TxAt(bs, g, tip, top + 1, tx);
        assert n == top + 1;
      } else {
        assert n <= top;
      }
    }
    forall tx | tx in l'
      ensures (l'[tx] <= top + 1 && TxAt(bs, g, tip, l'[tx], tx)) || (cn < l'[tx] && TxAt(bs, g, was, l'[tx], tx))
    {
      assert tx in b.txs ==> TxAt(bs, g, tip, top + 1, tx);
    }
  }

  lemma BranchUp(bs: Blocks, g: Hash, h: Hash, cn: nat, top: nat, next: nat)
    requires StoreOk(bs, g) && h in bs && cn <= top && next == top + 1 && next <= bs[h].number
    ensures forall tx :: InBranch(bs, g, h, cn, next, tx) <==> InBranch(bs, g, h, cn, top, tx) || tx in bs[Anc(bs, g, h, next)].txs
  {
    forall tx | tx in bs[Anc(bs, g, h, next)].txs
      ensures InBranch(bs, g, h, cn, next, tx)
    {
      assert TxAt(bs, g, h, next, tx);
    }
  }

  lemma BranchStep(bs: Blocks, g: Hash, was: Hash, tip: Hash, cn: nat, top: nat, canon: map<nat, Hash>, lookup: map<Tx, nat>,
                   added: seq<Tx>, b: Block)
    requires Forked(bs, g, was, tip, cn) && cn <= top < bs[tip].number
    requires BranchWritten(bs, g, was, tip, cn, top, canon, lookup, added) && b == bs[Anc(bs, g, tip, top + 1)]
    ensures BranchWritten(bs, g, was, tip, cn, top + 1, canon[b.number := b.hash], WriteLookup(lookup, b), added + b.txs)
  {
    CanonStep(bs, g, was, tip, top, canon, b);
    LookupStep(bs, g, was, tip, cn, top, lookup, b);
    BranchUp(bs, g, tip, cn, top, top + 1);
  }

  /** Deleting the old branch's lookups that the new branch did not take over leaves exactly the new branch's. */
  lemma LookupEnd(bs: Blocks, g: Hash, was: Hash, tip: Hash, cn: nat, top: nat, lookup: map<Tx, nat>, gone: set<Tx>)
    requires Forked(bs, g, was, tip, cn) && cn <= top <= bs[tip].number
    requires LookupWritten(bs, g, was, tip, cn, top, lookup)
    requires forall tx :: tx in gone <==> InBranch(bs, g, was, cn, bs[was].number, tx) && !InBranch(bs, g, tip, cn, top, tx)
    ensures LookupIs(bs, g, lookup - gone, Anc(bs, g, tip, top))
  {
    var t, l' := Anc(bs, g, tip, top), lookup - gone;
    forall n: nat | n <= top
      ensures Anc(bs, g, t, n) == Anc(bs, g, tip, n)
    {
      AncAnc(bs, g, tip, top, n);
    }
    forall tx | tx in l'
      ensures TxAt(bs, g, t, l'[tx], tx)
    {
      if !(lookup[tx] <= top && TxAt(bs, g, tip, lookup[tx], tx)) {
        assert InBranch(bs, g, was, cn, bs[was].number, tx);
      }
      assert TxAt(bs, g, tip, lookup[tx], tx);
    }
    forall n, tx | TxAt(bs, g, t, n, tx)
      ensures tx in l' && l'[tx] == n
    {
      assert TxAt(bs, g, tip, n, tx);
      if tx in gone {
        var m :| cn < m <= bs[was].number && TxAt(bs, g, was, m, tx);
        if n <= cn {
          SharedBelow(bs, g, was, tip, cn, n);
        }
        assert false;
      }
    }
  }

  function Truncate(canon: map<nat, Hash>, from: nat): map<nat, Hash> {
    map n | n in canon && n < from :: canon[n]
  }

  /** Cutting the number index above `top` leaves exactly the chain up to there. */
  lemma CanonEnd(bs: Blocks, g: Hash, was: Hash, tip: Hash, top: nat, canon: map<nat, Hash>)
    requires StoreOk(bs, g) && was in bs && tip in bs && top <= bs[tip].number
    requires CanonWritten(bs, g, was, tip, top, canon)
    ensures CanonIs(bs, g, Truncate(canon, top + 1), Anc(bs, g, tip, top))
  {
    forall n: nat | n <= top
      ensures Anc(bs, g, Anc(bs, g, tip, top), n) == Anc(bs, g, tip, n)
    {
      AncAnc(bs, g, tip, top, n);
    }
  }
}
