/** The transactions of a block in order (internal/state_processor.go), as a function of the block. */
module Process {
  import opened Wrappers
  import opened Bytes
  import opened Balances
  import opened Transition
  import opened Conservation

  datatype Receipt = Receipt(gasUsed: nat, cumulative: nat, failed: bool)

  /** After some transactions: the world, the gas pool, the gas used so far, and the receipts. */
  datatype Progress = Progress(world: World, pool: U64, used: nat, receipts: seq<Receipt>)

  /** The EVM may act differently in every transaction. */
  type Evms = nat -> Evm

  ghost predicate EvmsOk(evms: Evms) {
    forall i: nat :: EvmOk(evms(i))
  }

  predicate Sized(txs: seq<Tx>) {
    forall i | 0 <= i < |txs| :: |txs[i].data| < TWO_63
  }

  ghost function Run(w: World, limit: U64, txs: seq<Tx>, env: Env, evms: Evms): Result<Progress, TxError>
    requires Sized(txs) && EvmsOk(evms)
  {
    if txs == [] then Ok(Progress(w, limit, 0, []))
    else
      var n := |txs| - 1;
      var before := Run(w, limit, txs[..n], env, evms);
      if before.Err? then before else Next(before.value, txs[n], env, evms(n))
  }

  /** `applyTransaction`: the message, its gas added up, and its receipt. */
  ghost function Next(p: Progress, tx: Tx, env: Env, evm: Evm): Result<Progress, TxError>
    requires |tx.data| < TWO_63 && EvmOk(evm)
  {
    var t := Transit(p.world, p.pool, AsMessage(tx, env, true), env, evm);
    if t.Err? then Err(t.error)
    else
      var used := p.used + t.value.usedGas;
      Ok(Progress(t.value.world, t.value.pool, used, p.receipts + [Receipt(t.value.usedGas, used, t.value.failed)]))
  }

  /** The transaction is accepted after those before it. */
  ghost predicate AcceptedAt(w: World, limit: U64, txs: seq<Tx>, env: Env, evms: Evms, i: nat)
    requires Sized(txs) && EvmsOk(evms) && i < |txs|
  {
    var before := Run(w, limit, txs[..i], env, evms);
    before.Ok? && TxAccepted(before.value.world, before.value.pool, txs[i], env)
  }

  lemma StepAccepted(w: World, limit: U64, txs: seq<Tx>, env: Env, evms: Evms, k: nat)
    requires Sized(txs) && EvmsOk(evms) && k < |txs|
    ensures Run(w, limit, txs[..k + 1], env, evms).Ok? <==> AcceptedAt(w, limit, txs, env, evms, k)
    ensures AcceptedAt(w, limit, txs, env, evms, k) ==> Run(w, limit, txs[..k], env, evms).Ok?
  {
    assert txs[..k + 1][..k] == txs[..k];
    var before := Run(w, limit, txs[..k], env, evms);
    if before.Ok? {
      TxAcceptedExactly(before.value.world, before.value.pool, txs[k], env, evms(k));
    }
  }

  /** Where each place is reached exactly through the one before it, a place is reached exactly if all before it are passed. */
  lemma {:induction false} Chained(reached: nat -> bool, passed: nat -> bool, n: nat, k: nat)
    requires reached(0) && k <= n
    requires forall j: nat | j < n :: (reached(j + 1) <==> passed(j)) && (passed(j) ==> reached(j))
    ensures reached(k) <==> forall i: nat | i < k :: passed(i)
  {
    if k > 0 {
      Chained(reached, passed, n, k - 1);
      assert reached(k - 1 + 1) <==> passed(k - 1);
    }
  }

  /** The first transactions of a block run through exactly when each is accepted after those before it. */
  lemma RunExactly(w: World, limit: U64, txs: seq<Tx>, env: Env, evms: Evms, k: nat)
    requires Sized(txs) && EvmsOk(evms) && k <= |txs|
    ensures Run(w, limit, txs[..k], env, evms).Ok? <==> forall i: nat | i < k :: AcceptedAt(w, limit, txs, env, evms, i)
  {
    var reached := (j: nat) => j <= |txs| && Run(w, limit, txs[..j], env, evms).Ok?;
    var passed := (j: nat) => j < |txs| && AcceptedAt(w, limit, txs, env, evms, j);
    forall j: nat | j < |txs|
      ensures (reached(j + 1) <==> passed(j)) && (passed(j) ==> reached(j))
    {
      StepAccepted(w, limit, txs, env, evms, j);
    }
    Chained(reached, passed, |txs|, k);
    assert forall i: nat | i < k :: passed(i) <==> AcceptedAt(w, limit, txs, env, evms, i);
  }

  /** Through every successful prefix of a block, the gas pool and the gas used make up the block gas limit. */
  lemma {:induction false} PoolAndUsed(w: World, limit: U64, txs: seq<Tx>, env: Env, evms: Evms)
    requires Sized(txs) && EvmsOk(evms) && Run(w, limit, txs, env, evms).Ok?
    ensures var p := Run(w, limit, txs, env, evms).value;
            p.pool + p.used == limit && p.used <= limit && |p.receipts| == |txs|
  {
    if txs != [] {
      PoolAndUsed(w, limit, txs[..|txs| - 1], env, evms);
    }
  }

  function Before(receipts: seq<Receipt>, i: nat): nat
    requires i <= |receipts|
  {
    if i == 0 then 0 else receipts[i - 1].cumulative
  }

  /** Cumulative gas is the running sum of the receipts' gas, and every receipt adds to it. */
  ghost predicate RunningSums(receipts: seq<Receipt>) {
    forall i {:trigger AddsUp(receipts, i)} | 0 <= i < |receipts| :: AddsUp(receipts, i)
  }

  ghost predicate AddsUp(receipts: seq<Receipt>, i: int)
    requires 0 <= i < |receipts|
  {
    receipts[i].gasUsed > 0 && receipts[i].cumulative == Before(receipts, i) + receipts[i].gasUsed
  }

  /** No transaction of the block has an access list whose price wraps. */
  ghost predicate AllFit(txs: seq<Tx>, env: Env)
    requires Sized(txs)
  {
    forall i | 0 <= i < |txs| :: AccessListFits(AsMessage(txs[i], env, true), env.rules)
  }

  lemma {:induction false} ReceiptsAddUp(w: World, limit: U64, txs: seq<Tx>, env: Env, evms: Evms)
    requires Sized(txs) && EvmsOk(evms) && AllFit(txs, env) && Run(w, limit, txs, env, evms).Ok?
    ensures var p := Run(w, limit, txs, env, evms).value;
            RunningSums(p.receipts) && p.used == Before(p.receipts, |p.receipts|)
  {
    if txs != [] {
      var n := |txs| - 1;
      ReceiptsAddUp(w, limit, txs[..n], env, evms);
      PoolAndUsed(w, limit, txs[..n], env, evms);
      var p := Run(w, limit, txs[..n], env, evms).value;
      SomeGasUsed(p.world, p.pool, AsMessage(txs[n], env, true), env, evms(n));
      SumsSnoc(p.receipts, p.used, Run(w, limit, txs, env, evms).value.receipts[n]);
    }
  }

  /** What one step of a run adds: the outcome of its message in the world so far, and a receipt for it. */
  ghost predicate StepIs(p: Progress, tx: Tx, env: Env, evm: Evm, q: Progress)
    requires |tx.data| < TWO_63 && EvmOk(evm)
  {
    var t := Transit(p.world, p.pool, AsMessage(tx, env, true), env, evm);
    && t.Ok? && q.world == t.value.world && q.pool == t.value.pool && |q.receipts| == |p.receipts| + 1 && p.receipts <= q.receipts
    && q.receipts[|p.receipts|].gasUsed == t.value.usedGas && q.receipts[|p.receipts|].failed == t.value.failed
  }

  /** Each transaction of a successful run is applied to what those before it left, and its receipt says how it ended. */
  lemma RunSteps(w: World, limit: U64, txs: seq<Tx>, env: Env, evms: Evms, k: nat)
    requires Sized(txs) && EvmsOk(evms) && k < |txs| && Run(w, limit, txs[..k + 1], env, evms).Ok?
    ensures Run(w, limit, txs[..k], env, evms).Ok?
    ensures StepIs(Run(w, limit, txs[..k], env, evms).value, txs[k], env, evms(k), Run(w, limit, txs[..k + 1], env, evms).value)
    ensures |Run(w, limit, txs[..k], env, evms).value.receipts| == k
  {
    assert txs[..k + 1][..k] == txs[..k];
    PoolAndUsed(w, limit, txs[..k], env, evms);
  }

  lemma SumsSnoc(receipts: seq<Receipt>, used: nat, r: Receipt)
    requires RunningSums(receipts) && used == Before(receipts, |receipts|) && r.gasUsed > 0 && r.cumulative == used + r.gasUsed
    ensures RunningSums(receipts + [r]) && Before(receipts + [r], |receipts| + 1) == r.cumulative
  {
    var rs := receipts + [r];
    forall i | 0 <= i < |rs|
      ensures AddsUp(rs, i)
    {
      if i < |receipts| {
        assert AddsUp(receipts, i);
      }
    }
  }

  /** Cumulative gas increases strictly along the receipts. */
  lemma {:induction false} CumulativeIncreases(receipts: seq<Receipt>, i: nat, j: nat)
    requires RunningSums(receipts) && i < j < |receipts|
    ensures receipts[i].cumulative < receipts[j].cumulative
    decreases j
  {
    assert AddsUp(receipts, j);
    if i < j - 1 {
      CumulativeIncreases(receipts, i, j - 1);
    }
  }

  lemma BurntAdds(env: Env, a: nat, b: nat)
    ensures Burnt(env, a + b) == Burnt(env, a) + Burnt(env, b)
  {
    Distribute(env.baseFee, a, b);
  }

  /** One transaction of the block. */
  lemma NextConserves(p: Progress, tx: Tx, env: Env, evm: Evm, start: nat)
    requires |tx.data| < TWO_63 && EvmOk(evm) && AccessListFits(AsMessage(tx, env, true), env.rules) && !env.noBaseFee
    requires Total(p.world.balances) == start - Burnt(env, p.used) && start < TWO_256 && Next(p, tx, env, evm).Ok?
    ensures var q := Next(p, tx, env, evm).value;
            Total(q.world.balances) == start - Burnt(env, q.used)
  {
    MulNonNegative(p.used, env.baseFee);
    ValueConserved(p.world, p.pool, tx, env, true, evm);
    BurntAdds(env, p.used, Transit(p.world, p.pool, AsMessage(tx, env, true), env, evm).value.usedGas);
  }

  /** Over the whole block the sum of balances falls by exactly what the gas used burns. */
  lemma {:induction false} BlockConserves(w: World, limit: U64, txs: seq<Tx>, env: Env, evms: Evms)
    requires Sized(txs) && EvmsOk(evms) && AllFit(txs, env) && Run(w, limit, txs, env, evms).Ok?
    requires !env.noBaseFee && Total(w.balances) < TWO_256
    ensures var p := Run(w, limit, txs, env, evms).value;
            Total(p.world.balances) == Total(w.balances) - Burnt(env, p.used)
  {
    if txs != [] {
      var n := |txs| - 1;
      BlockConserves(w, limit, txs[..n], env, evms);
      assert AccessListFits(AsMessage(txs[n], env, true), env.rules);
      NextConserves(Run(w, limit, txs[..n], env, evms).value, txs[n], env, evms(n), Total(w.balances));
    }
  }

  // Nonces over a block.

  ghost predicate NoncesKept(txs: seq<Tx>, evms: Evms) {
    forall i | 0 <= i < |txs| :: KeepsNonces(evms(i), txs[i].from, txs[i].to.None?)
  }

  lemma NextNonces(p: Progress, tx: Tx, env: Env, evm: Evm, x: Address)
    requires |tx.data| < TWO_63 && EvmOk(evm) && Next(p, tx, env, evm).Ok? && KeepsNonces(evm, tx.from, tx.to.None?)
    ensures var q := Next(p, tx, env, evm).value;
            NonceOf(q.world, x) >= NonceOf(p.world, x) && NonceOf(p.world, tx.from) == tx.nonce < NonceOf(q.world, tx.from)
  {
    TransitNonces(p.world, p.pool, AsMessage(tx, env, true), env, evm, x);
  }

  /** The last transaction of a block: what came before it, and what it does to nonces. */
  lemma LastNonces(w: World, limit: U64, txs: seq<Tx>, env: Env, evms: Evms, x: Address)
    requires Sized(txs) && EvmsOk(evms) && NoncesKept(txs, evms) && Run(w, limit, txs, env, evms).Ok? && txs != []
    ensures var n := |txs| - 1;
            var p, q := Run(w, limit, txs[..n], env, evms), Run(w, limit, txs, env, evms).value;
            && NoncesKept(txs[..n], evms) && p.Ok?
            && NonceOf(q.world, x) >= NonceOf(p.value.world, x) && NonceOf(p.value.world, txs[n].from) == txs[n].nonce < NonceOf(q.world, txs[n].from)
  {
    var n := |txs| - 1;
    assert KeepsNonces(evms(n), txs[n].from, txs[n].to.None?);
    NextNonces(Run(w, limit, txs[..n], env, evms).value, txs[n], env, evms(n), x);
  }

  /** After a block, the nonce of a sender is past the nonces of all its transactions in the block. */
  lemma {:induction false} NoncesSpent(w: World, limit: U64, txs: seq<Tx>, env: Env, evms: Evms, i: nat)
    requires Sized(txs) && EvmsOk(evms) && NoncesKept(txs, evms) && Run(w, limit, txs, env, evms).Ok? && i < |txs|
    ensures txs[i].nonce < NonceOf(Run(w, limit, txs, env, evms).value.world, txs[i].from)
    decreases |txs|
  {
    LastNonces(w, limit, txs, env, evms, txs[i].from);
    if i < |txs| - 1 {
      NoncesSpent(w, limit, txs[..|txs| - 1], env, evms, i);
    }
  }

  /** In a block that is accepted the nonces of a sender increase strictly; in particular no transaction occurs twice. */
  lemma {:induction false} NoncesIncrease(w: World, limit: U64, txs: seq<Tx>, env: Env, evms: Evms, i: nat, j: nat)
    requires Sized(txs) && EvmsOk(evms) && NoncesKept(txs, evms) && Run(w, limit, txs, env, evms).Ok?
    requires i < j < |txs| && txs[i].from == txs[j].from
    ensures txs[i].nonce < txs[j].nonce
    decreases |txs|
  {
    LastNonces(w, limit, txs, env, evms, txs[j].from);
    if j < |txs| - 1 {
      NoncesIncrease(w, limit, txs[..|txs| - 1], env, evms, i, j);
    } else {
      NoncesSpent(w, limit, txs[..|txs| - 1], env, evms, i);
    }
  }
}
