/** Which messages are accepted, and what an accepted message does to every account, in plain conditions. */
module Acceptance {
  import opened Wrappers
  import opened Bytes
  import opened Balances
  import opened Intrinsic
  import opened Transition

  /** The message has the sender's nonce, which is not the last one, and the sender has no code. */
  predicate NonceOk(w: World, msg: Message) {
    msg.checkNonce ==> NonceOf(w, msg.from) == msg.nonce < MAX_U64 && msg.from !in w.contracts
  }

  /** From London on the tip is within the fee cap and the fee cap covers the base fee, unless the message is free. */
  predicate FeesOk(msg: Message, env: Env) {
    env.rules.london && !(env.noBaseFee && msg.feeCap == 0 && msg.tip == 0) ==>
      msg.tip <= msg.feeCap && (env.baseFee <= msg.feeCap || msg.isFree)
  }

  /** The sender has the gas at the fee cap and the value, and neither product nor sum passes 256 bits. */
  predicate FundsOk(w: World, msg: Message) {
    msg.gas * msg.gasPrice < TWO_256 && msg.gas * msg.feeCap + msg.value < TWO_256
    && msg.gas * msg.feeCap + msg.value <= Get(w.balances, msg.from)
  }

  /** The intrinsic gas is defined and paid for. */
  predicate IntrinsicOk(msg: Message, rules: Rules)
    requires |msg.data| < TWO_63
  {
    MessageGas(msg, rules).Ok? && MessageGas(msg, rules).value <= msg.gas
  }

  predicate Accepted(w: World, pool: U64, msg: Message, env: Env)
    requires |msg.data| < TWO_63
  {
    NonceOk(w, msg) && FeesOk(msg, env) && FundsOk(w, msg) && msg.gas <= pool && IntrinsicOk(msg, env.rules)
  }

  /** A message is accepted exactly when nonce, code, fees, funds, gas pool and intrinsic gas are all right. */
  lemma AcceptedExactly(w: World, pool: U64, msg: Message, env: Env, evm: Evm)
    requires |msg.data| < TWO_63 && EvmOk(evm)
    ensures Transit(w, pool, msg, env, evm).Ok? <==> Accepted(w, pool, msg, env)
  {
  }

  /** The error of a refused message, by the first condition it fails. */
  predicate ErrorIs(w: World, pool: U64, msg: Message, env: Env, e: TxError)
    requires |msg.data| < TWO_63
  {
    var nonce := NonceOf(w, msg.from);
    match e
    case NonceTooHigh => msg.checkNonce && nonce < msg.nonce
    case NonceTooLow => msg.checkNonce && nonce > msg.nonce
    case NonceMax => msg.checkNonce && nonce == msg.nonce == MAX_U64
    case SenderNoEOA => msg.checkNonce && nonce == msg.nonce < MAX_U64 && msg.from in w.contracts
    case TipAboveFeeCap => NonceOk(w, msg) && !FeesOk(msg, env) && msg.tip > msg.feeCap
    case FeeCapTooLow => NonceOk(w, msg) && !FeesOk(msg, env) && msg.tip <= msg.feeCap < env.baseFee && !msg.isFree
    case InsufficientFunds => NonceOk(w, msg) && FeesOk(msg, env) && !FundsOk(w, msg)
    case GasLimitReached => NonceOk(w, msg) && FeesOk(msg, env) && FundsOk(w, msg) && pool < msg.gas
    case GasOverflow => NonceOk(w, msg) && FeesOk(msg, env) && FundsOk(w, msg) && msg.gas <= pool && MessageGas(msg, env.rules).Err?
    case IntrinsicGasTooLow =>
      && NonceOk(w, msg) && FeesOk(msg, env) && FundsOk(w, msg) && msg.gas <= pool
      && MessageGas(msg, env.rules).Ok? && msg.gas < MessageGas(msg, env.rules).value
  }

  lemma RefusedExactly(w: World, pool: U64, msg: Message, env: Env, evm: Evm, e: TxError)
    requires |msg.data| < TWO_63 && EvmOk(evm)
    ensures Transit(w, pool, msg, env, evm) == Err(e) <==> ErrorIs(w, pool, msg, env, e)
  {
  }

  /** A transfer that is accepted: right nonce, no code, enough for gas and value. */
  lemma TransferAccepted() returns (w: World, msg: Message, env: Env, evm: Evm)
    ensures msg.checkNonce && env.rules.london && env.baseFee > 0 && msg.value > 0 && EvmOk(evm)
    ensures |msg.data| < TWO_63 && Transit(w, 21000, msg, env, evm).Ok?
  {
    w, env := World(map[1 := 1000000], map[1 := 4], {2}), Env(Rules(true, true, true, true, false), 7, 3, 4, false);
    msg := Message(1, Some(5), 4, true, false, 21000, 9, 10, 2, 100, [], None);
    evm := (w: World, g: U64) => Outcome(w, g, 0, false);
    SumExactly(TX_GAS, 0);
    assert MessageGas(msg, env.rules) == Ok(21000);
    AcceptedExactly(w, 21000, msg, env, evm);
  }

  // What an accepted message does.

  /** The EVM starts with the gas paid for and, for a call, the nonce raised by one; nothing else differs. */
  lemma StartedIs(w: World, pool: U64, msg: Message, env: Env, x: Address)
    requires PreCheck(w, pool, msg, env).None? && msg.gasPrice <= msg.feeCap
    ensures var s := Started(w, msg);
            && Get(s.balances, x) == Get(w.balances, x) - (if x == msg.from then msg.gas * msg.gasPrice else 0)
            && s.contracts == w.contracts
            && (msg.checkNonce ==> NonceOf(s, x) == NonceOf(w, x) + if x == msg.from && msg.to.Some? then 1 else 0)
  {
    PriceLe(msg.gas, msg.gasPrice, msg.feeCap);
  }

  lemma BalanceLe(m: Ledger, x: Address)
    ensures Get(m, x) <= Total(m)
  {
    TotalSet(m, x, 0);
  }

  /** A credit that does not wrap reaches its account and no other. */
  lemma CreditIs(m: Ledger, a: Address, v: U256, x: Address)
    requires Total(m) + v < TWO_256
    ensures Get(Credit(m, a, v), x) == Get(m, x) + (if x == a then v else 0) && Total(Credit(m, a, v)) == Total(m) + v
  {
    BalanceLe(m, a);
    CreditTotal(m, a, v);
  }

  /** What the account gets out of gas used at the price: the tip as the coinbase, the base fee as the collector. */
  function Earned(msg: Message, env: Env, used: nat, x: Address): nat {
    (if x == env.coinbase then used * EffectiveTip(msg, env) else 0)
    + (if x == env.collector && !msg.isFree && env.rules.london && env.rules.feeCollector then used * env.baseFee else 0)
  }

  /** The effective tip: the tip, but no more than the fee cap leaves over the base fee; the gas price before London. */
  lemma EffectiveTipIs(msg: Message, env: Env)
    ensures var tip, room := EffectiveTip(msg, env), if msg.feeCap > env.baseFee then msg.feeCap - env.baseFee else 0;
            if env.rules.london then tip <= msg.tip && tip <= room && (tip == msg.tip || tip == room) else tip == msg.gasPrice
  {
  }

  lemma SettledBalance(b: Ledger, msg: Message, env: Env, left: U64, x: Address)
    requires left <= msg.gas
    requires var used := msg.gas - left;
             && Mul(left, msg.gasPrice) == left * msg.gasPrice && Mul(used, EffectiveTip(msg, env)) == used * EffectiveTip(msg, env)
             && (Collects(msg, env) ==> Mul(used, env.baseFee) == used * env.baseFee)
    requires Total(b) + left * msg.gasPrice + PaidOut(msg, env, msg.gas - left) < TWO_256
    ensures Get(Settle(b, msg, env, left), x) == Get(b, x) + (if x == msg.from then left * msg.gasPrice else 0) + Earned(msg, env, msg.gas - left, x)
  {
    var used := msg.gas - left;
    MulNonNegative(left, msg.gasPrice);
    MulNonNegative(used, EffectiveTip(msg, env));
    MulNonNegative(used, env.baseFee);
    var b1 := Credit(b, msg.from, Mul(left, msg.gasPrice));
    CreditIs(b, msg.from, Mul(left, msg.gasPrice), x);
    var b2 := Credit(b1, env.coinbase, Mul(used, EffectiveTip(msg, env)));
    CreditIs(b1, env.coinbase, Mul(used, EffectiveTip(msg, env)), x);
    if Collects(msg, env) {
      CreditIs(b2, env.collector, Mul(used, env.baseFee), x);
    }
  }

  /** The share of the gas that a refund may reach. */
  function Quotient(env: Env): nat {
    if env.rules.london then 5 else 2
  }

  /**
   The gas used is what the EVM left unreturned, with the intrinsic gas, less the refund: the whole counter or, if that
   is less, the largest refund within a fifth, before London half, of the gas spent.
   */
  lemma UsedExactly(w: World, pool: U64, msg: Message, env: Env, evm: Evm)
    requires |msg.data| < TWO_63 && EvmOk(evm) && Transit(w, pool, msg, env, evm).Ok?
    ensures var a, o := Transit(w, pool, msg, env, evm).value, evm(Started(w, msg), msg.gas - MessageGas(msg, env.rules).value);
            var refund := msg.gas - o.gasLeft - a.usedGas;
            && 0 <= refund <= o.refund && Quotient(env) * refund <= msg.gas - o.gasLeft
            && (refund == o.refund || Quotient(env) * (refund + 1) > msg.gas - o.gasLeft)
            && a.pool == pool - a.usedGas && a.failed == o.failed
  {
    var o := evm(Started(w, msg), msg.gas - MessageGas(msg, env.rules).value);
    RefundedIs(msg.gas - o.gasLeft, Quotient(env), o.refund);
  }

  /**
   Beyond what the EVM moves, the sender pays the gas used at the gas price, the coinbase earns the tip on it, the
   collector the base fee, and no other balance changes.
   */
  lemma BalancesExactly(w: World, pool: U64, msg: Message, env: Env, evm: Evm, x: Address)
    requires |msg.data| < TWO_63 && EvmOk(evm) && Transit(w, pool, msg, env, evm).Ok?
    requires msg.gasPrice <= msg.feeCap && !FeesSkipped(msg, env) && Total(w.balances) < TWO_256
    requires EffectiveTip(msg, env) + (if Collects(msg, env) then env.baseFee else 0) <= msg.gasPrice
    ensures var a, s := Transit(w, pool, msg, env, evm).value, Started(w, msg);
            var o := evm(s, msg.gas - MessageGas(msg, env.rules).value);
            var moved := Get(o.world.balances, x) - Get(s.balances, x);
            Get(a.world.balances, x) ==
            Get(w.balances, x) + moved - (if x == msg.from then a.usedGas * msg.gasPrice else 0) + Earned(msg, env, a.usedGas, x)
  {
    var a := Transit(w, pool, msg, env, evm).value;
    var o := evm(Started(w, msg), msg.gas - MessageGas(msg, env.rules).value);
    var left := GasLeft(msg.gas, o, env.rules.london);
    StartedIs(w, pool, msg, env, x);
    ValueCovered(w, pool, msg, env);
    NoProductWraps(w, pool, msg, env, a.usedGas);
    SplitGas(msg.gas, left, msg.gasPrice);
    PaidOutLe(msg, env, a.usedGas);
    SettledBalance(o.world.balances, msg, env, left, x);
  }
}
