/** The objects that carry a message and a block through: gas pool, state, state transition, processor. */
module StateTransition {
  import opened Wrappers
  import opened Bytes
  import opened Balances
  import opened Intrinsic
  import opened Transition
  import opened Conservation
  import opened Process

  /** `common.GasPool`. */
  class GasPool {
    var gas: U64

    constructor ()
      ensures gas == 0
    {
      gas := 0;
    }

    /** `AddGas`: panics rather than wrap. */
    method AddGas(amount: U64) returns (panics: bool)
      modifies this
      ensures panics <==> old(gas) + amount > MAX_U64
      ensures gas == if panics then old(gas) else old(gas) + amount
    {
      panics := gas > MAX_U64 - amount;
      if !panics {
        gas := gas + amount;
      }
    }

    method SubGas(amount: U64) returns (ok: bool)
      modifies this
      ensures ok <==> amount <= old(gas)
      ensures gas == if ok then old(gas) - amount else old(gas)
    {
      ok := gas >= amount;
      if ok {
        gas := gas - amount;
      }
    }
  }

  /** The state the transactions of a block share. */
  class State {
    var world: World

    constructor (w: World)
      ensures world == w
    {
      world := w;
    }

    method AddBalance(a: Address, v: U256)
      modifies this
      ensures world == old(world).(balances := Credit(old(world).balances, a, v))
    {
      world := world.(balances := Credit(world.balances, a, v));
    }
  }

  method CapRefund(used: nat, refundQuotient: nat, counter: nat) returns (refund: nat)
    requires refundQuotient > 0
    ensures refund == Refunded(used, refundQuotient, counter)
  {
    CapFits(used, refundQuotient);
    refund := used / refundQuotient;
    if refund > counter {
      refund := counter;
    }
  }

  /** What a refused message leaves: nothing changed, or the gas already bought where only the intrinsic gas was missing. */
  predicate Refused(w: World, pool: U64, msg: Message, env: Env, w': World, pool': U64) {
    if PreCheck(w, pool, msg, env).Some? then w' == w && pool' == pool else w' == Bought(w, msg) && pool' == pool - msg.gas
  }

  /** `StateTransition`, without bailout and with refunds. */
  class StateTransition {
    const gp: GasPool
    const state: State
    const msg: Message
    const env: Env
    var gas: U64
    var initialGas: U64

    constructor (gp: GasPool, state: State, msg: Message, env: Env)
      ensures this.gp == gp && this.state == state && this.msg == msg && this.env == env && gas == 0
    {
      this.gp := gp;
      this.state := state;
      this.msg := msg;
      this.env := env;
      gas, initialGas := 0, 0;
    }

    method BuyGas() returns (err: Option<TxError>)
      requires gas == 0
      modifies this, gp, state
      ensures err == FundsCheck(old(state.world), old(gp.gas), msg)
      ensures err.None? ==> state.world == Bought(old(state.world), msg) && gp.gas == old(gp.gas) - msg.gas && gas == initialGas == msg.gas
      ensures err.Some? ==> state.world == old(state.world) && gp.gas == old(gp.gas)
    {
      MulNonNegative(msg.gas, msg.gasPrice);
      var mgval := msg.gas * msg.gasPrice;
      if mgval >= TWO_256 {
        return Some(InsufficientFunds);
      }
      var balanceCheck := msg.gas * msg.feeCap;
      if balanceCheck >= TWO_256 {
        return Some(InsufficientFunds);
      }
      balanceCheck := balanceCheck + msg.value;
      if balanceCheck >= TWO_256 || Get(state.world.balances, msg.from) < balanceCheck {
        return Some(InsufficientFunds);
      }
      var ok := gp.SubGas(msg.gas);
      if !ok {
        return Some(GasLimitReached);
      }
      gas := gas + msg.gas;
      initialGas := msg.gas;
      state.world := state.world.(balances := Debit(state.world.balances, msg.from, mgval));
      err := None;
    }

    method PreCheck() returns (err: Option<TxError>)
      requires gas == 0
      modifies this, gp, state
      ensures err == Transition.PreCheck(old(state.world), old(gp.gas), msg, env)
      ensures err.None? ==> state.world == Bought(old(state.world), msg) && gp.gas == old(gp.gas) - msg.gas && gas == initialGas == msg.gas
      ensures err.Some? ==> state.world == old(state.world) && gp.gas == old(gp.gas)
    {
      if msg.checkNonce {
        var stNonce := NonceOf(state.world, msg.from);
        if stNonce < msg.nonce {
          return Some(NonceTooHigh);
        } else if stNonce > msg.nonce {
          return Some(NonceTooLow);
        } else if (if stNonce == MAX_U64 then 0 else stNonce + 1) < stNonce {
          return Some(NonceMax);
        }
        if msg.from in state.world.contracts {
          return Some(SenderNoEOA);
        }
      }
      if env.rules.london {
        if !env.noBaseFee || msg.feeCap != 0 || msg.tip != 0 {
          if msg.feeCap < msg.tip {
            return Some(TipAboveFeeCap);
          }
          if msg.feeCap < env.baseFee && !msg.isFree {
            return Some(FeeCapTooLow);
          }
        }
      }
      err := BuyGas();
    }

    function GasUsed(): nat
      requires gas <= initialGas
      reads this
    {
      initialGas - gas
    }

    /** `refundGas`: the counter capped by a share of the gas used, paid back with the gas that is left. */
    method RefundGas(refundQuotient: nat, counter: U64) returns (panics: bool)
      requires 0 < refundQuotient && gas <= initialGas
      requires gp.gas + initialGas <= MAX_U64
      modifies this`gas, gp, state
      ensures !panics
      ensures gas == old(gas) + Refunded(initialGas - old(gas), refundQuotient, counter)
      ensures gp.gas == old(gp.gas) + gas
      ensures state.world == old(state.world).(balances := Credit(old(state.world).balances, msg.from, Mul(gas, msg.gasPrice)))
    {
      var refund := CapRefund(GasUsed(), refundQuotient, counter);
      gas := gas + refund;
      state.AddBalance(msg.from, Mul(gas, msg.gasPrice));
      panics := gp.AddGas(gas);
    }

    /** What precedes the EVM in `TransitionDb`: checks, buying gas, intrinsic gas, and the nonce of a call. */
    method Begin() returns (err: Option<TxError>)
      requires gas == 0 && |msg.data| < TWO_63
      modifies this, gp, state
      ensures err == Refusal(old(state.world), old(gp.gas), msg, env)
      ensures err.None? ==> state.world == Started(old(state.world), msg) && gp.gas == old(gp.gas) - msg.gas
      ensures err.None? ==> gas == msg.gas - MessageGas(msg, env.rules).value && initialGas == msg.gas
      ensures err.Some? ==> Refused(old(state.world), old(gp.gas), msg, env, state.world, gp.gas)
    {
      err := PreCheck();
      if err.Some? {
        return;
      }
      var rules := env.rules;
      var ig := IntrinsicGas(msg.data, msg.accessList, msg.to.None?, rules.homestead, rules.istanbul, rules.shanghai);
      if ig.Err? {
        return Some(GasOverflow);
      }
      if gas < ig.value {
        return Some(IntrinsicGasTooLow);
      }
      gas := gas - ig.value;
      if msg.to.Some? {
        var nonce := NonceOf(state.world, msg.from);
        state.world := state.world.(nonces := state.world.nonces[msg.from := if nonce == MAX_U64 then 0 else nonce + 1]);
      }
    }

    /** `TransitionDb`: exactly `Transit`; the gas pool never panics. */
    method TransitionDb(evm: Evm) returns (r: Result<(U64, bool), TxError>, panics: bool)
      requires gas == 0 && |msg.data| < TWO_63 && EvmOk(evm)
      modifies this, gp, state
      ensures !panics
      ensures var t := Transit(old(state.world), old(gp.gas), msg, env, evm);
              t == if r.Err? then Err(r.error) else Ok(Applied(state.world, gp.gas, r.value.0, r.value.1))
      ensures r.Err? ==> Refused(old(state.world), old(gp.gas), msg, env, state.world, gp.gas)
    {
      var err := Begin();
      if err.Some? {
        return Err(err.value), false;
      }
      var o := evm(state.world, gas);
      assert Transit(old(state.world), old(gp.gas), msg, env, evm) == Ok(Finished(old(gp.gas), msg, env, o));
      state.world, gas := o.world, o.gasLeft;
      panics := Finish(o, old(gp.gas));
      r := Ok((GasUsed(), o.failed));
    }

    /** What follows the EVM in `TransitionDb`, when the pool held `pool` before. */
    method Finish(o: Outcome, ghost pool: U64) returns (panics: bool)
      requires o.gasLeft <= initialGas == msg.gas <= pool && gp.gas == pool - msg.gas
      requires state.world == o.world && gas == o.gasLeft
      modifies this`gas, gp, state
      ensures !panics && gas <= initialGas
      ensures Finished(pool, msg, env, o) == Applied(state.world, gp.gas, initialGas - gas, o.failed)
    {
      panics := RefundGas(if env.rules.london then REFUND_QUOTIENT_EIP3529 else REFUND_QUOTIENT, o.refund);
      assert gas == GasLeft(msg.gas, o, env.rules.london);
      Pay();
    }

    /** The end of `TransitionDb`: the tip to the coinbase and the base fee to the collector. */
    method Pay()
      requires gas <= initialGas
      modifies state
      ensures var b := Credit(old(state.world).balances, env.coinbase, Mul(GasUsed(), EffectiveTip(msg, env)));
              state.world == old(state.world).(balances := if Collects(msg, env) then Credit(b, env.collector, Mul(GasUsed(), env.baseFee)) else b)
    {
      var effectiveTip := msg.gasPrice;
      if env.rules.london {
        if msg.feeCap > env.baseFee {
          effectiveTip := if msg.tip > msg.feeCap - env.baseFee then msg.feeCap - env.baseFee else msg.tip;
        } else {
          effectiveTip := 0;
        }
      }
      state.AddBalance(env.coinbase, Mul(GasUsed(), effectiveTip));
      if !msg.isFree && env.rules.london && env.rules.feeCollector {
        state.AddBalance(env.collector, Mul(GasUsed(), env.baseFee));
      }
    }
  }

  /** `applyTransaction`. */
  method ApplyTransaction(gp: GasPool, state: State, tx: Tx, env: Env, evm: Evm, usedGas: U64, receipts: seq<Receipt>)
    returns (r: Result<(U64, seq<Receipt>), TxError>, panics: bool)
    requires |tx.data| < TWO_63 && EvmOk(evm) && gp.gas + usedGas < TWO_64
    modifies gp, state
    ensures !panics
    ensures var next := Next(Progress(old(state.world), old(gp.gas), usedGas, receipts), tx, env, evm);
            next == if r.Err? then Err(r.error) else Ok(Progress(state.world, gp.gas, r.value.0, r.value.1))
    ensures r.Ok? ==> gp.gas + r.value.0 == old(gp.gas) + usedGas
  {
    var st := new StateTransition(gp, state, AsMessage(tx, env, true), env);
    var result, p := st.TransitionDb(evm);
    panics := p;
    if result.Err? {
      return Err(result.error), panics;
    }
    var used := usedGas + result.value.0;
    r := Ok((used, receipts + [Receipt(result.value.0, used, result.value.1)]));
  }

  /** `Process`: the receipts and the gas used, or an error if a transaction fails or the header disagrees. */
  method ProcessBlock(state: State, gasLimit: U64, headerGasUsed: U64, txs: seq<Tx>, env: Env, evms: Evms)
    returns (r: Option<(seq<Receipt>, U64)>, panics: bool)
    requires Sized(txs) && EvmsOk(evms)
    modifies state
    ensures !panics
    ensures var run := Run(old(state.world), gasLimit, txs, env, evms);
            if run.Err? || run.value.used != headerGasUsed then r == None
            else r == Some((run.value.receipts, headerGasUsed)) && state.world == run.value.world
  {
    var usedGas: U64 := 0;
    var gp := new GasPool();
    panics := gp.AddGas(gasLimit);
    var receipts: seq<Receipt> := [];
    for i := 0 to |txs|
      invariant fresh(gp) && !panics && gp.gas + usedGas < TWO_64
      invariant Run(old(state.world), gasLimit, txs[..i], env, evms) == Ok(Progress(state.world, gp.gas, usedGas, receipts))
    {
      RunStep(old(state.world), gasLimit, txs, i, env, evms);
      var result, p := ApplyTransaction(gp, state, txs[i], env, evms(i), usedGas, receipts);
      panics := p;
      if result.Err? {
        RunFails(old(state.world), gasLimit, txs, i + 1, env, evms);
        return None, panics;
      }
      usedGas, receipts := result.value.0, result.value.1;
    }
    assert txs[..|txs|] == txs;
    if usedGas != headerGasUsed {
      return None, panics;
    }
    r := Some((receipts, usedGas));
  }

  lemma RunStep(w: World, limit: U64, txs: seq<Tx>, i: nat, env: Env, evms: Evms)
    requires Sized(txs) && EvmsOk(evms) && i < |txs|
    ensures var before := Run(w, limit, txs[..i], env, evms);
            Run(w, limit, txs[..i + 1], env, evms) == if before.Err? then before else Next(before.value, txs[i], env, evms(i))
  {
    assert txs[..i + 1][..i] == txs[..i];
  }

  /** A block that fails at a transaction fails. */
  lemma {:induction false} RunFails(w: World, limit: U64, txs: seq<Tx>, i: nat, env: Env, evms: Evms)
    requires Sized(txs) && EvmsOk(evms) && i <= |txs| && Run(w, limit, txs[..i], env, evms).Err?
    ensures Run(w, limit, txs, env, evms).Err?
    decreases |txs| - i
  {
    if i < |txs| {
      RunStep(w, limit, txs, i, env, evms);
      RunFails(w, limit, txs, i + 1, env, evms);
    } else {
      assert txs[..i] == txs;
    }
  }
}
