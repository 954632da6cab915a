/** Value conservation of one transaction, with the fees `Transaction.AsMessage` gives it. */
module Conservation {
  import opened Wrappers
  import opened Bytes
  import opened Balances
  import opened Intrinsic
  import opened Transition
  import opened Acceptance

  /** A transaction: for the types without dynamic fees, `tip` and `feeCap` are both the gas price. */
  datatype Tx = Tx(
    from: Address, to: Option<Address>, nonce: U64, gas: U64,
    feeCap: U256, tip: U256, value: U256, data: seq<Byte>, accessList: Option<AccessList>)

  /** The effective gas price; the sum is `uint256.Add`, which wraps. */
  function EffectivePrice(tip: U256, feeCap: U256, baseFee: U256): (p: U256)
    ensures p <= feeCap
  {
    var sum := if tip + baseFee < TWO_256 then tip + baseFee else tip + baseFee - TWO_256;
    if sum > feeCap then feeCap else sum
  }

  /** Tip and base fee, added modulo 2^256, but no more than the fee cap. */
  lemma EffectivePriceIs(tip: U256, feeCap: U256, baseFee: U256)
    ensures var p, sum := EffectivePrice(tip, feeCap, baseFee), (tip + baseFee) % TWO_256;
            p <= sum && p <= feeCap && (p == sum || p == feeCap)
  {
    var wraps := tip + baseFee >= TWO_256;
    DivModUnique(tip + baseFee, TWO_256, if wraps then 1 else 0, if wraps then tip + baseFee - TWO_256 else tip + baseFee);
  }

  /** `AsMessage`, then `SetCheckNonce`; a header has a base fee from London on. */
  function AsMessage(tx: Tx, env: Env, checkNonce: bool): (msg: Message)
    ensures msg.gasPrice <= msg.feeCap
  {
    var gasPrice := if env.rules.london then EffectivePrice(tx.tip, tx.feeCap, env.baseFee) else tx.feeCap;
    Message(tx.from, tx.to, tx.nonce, checkNonce, false, tx.gas, gasPrice, tx.feeCap, tx.tip, tx.value, tx.data, tx.accessList)
  }

  /** What a block asks of its next transaction. */
  predicate TxAccepted(w: World, pool: U64, tx: Tx, env: Env)
    requires |tx.data| < TWO_63
  {
    var rules := env.rules;
    var gas := Intrinsic.Intrinsic(tx.data, tx.accessList, tx.to.None?, rules.homestead, rules.istanbul, rules.shanghai);
    && NonceOf(w, tx.from) == tx.nonce < MAX_U64 && tx.from !in w.contracts
    && (rules.london && !(env.noBaseFee && tx.feeCap == 0 && tx.tip == 0) ==> tx.tip <= tx.feeCap && env.baseFee <= tx.feeCap)
    && tx.gas * tx.feeCap + tx.value <= Get(w.balances, tx.from)
    && tx.gas <= pool && gas.Ok? && gas.value <= tx.gas
  }

  /** A transaction is accepted exactly when these hold: a balance that covers it rules out every overflow. */
  lemma TxAcceptedExactly(w: World, pool: U64, tx: Tx, env: Env, evm: Evm)
    requires |tx.data| < TWO_63 && EvmOk(evm)
    ensures Transit(w, pool, AsMessage(tx, env, true), env, evm).Ok? <==> TxAccepted(w, pool, tx, env)
  {
    var msg := AsMessage(tx, env, true);
    AcceptedExactly(w, pool, msg, env, evm);
    PriceLe(msg.gas, msg.gasPrice, msg.feeCap);
  }

  /** The intrinsic gas of the message is what it would be without a bound. */
  ghost predicate AccessListFits(msg: Message, rules: Rules)
    requires |msg.data| < TWO_63
  {
    DataGas(msg.data, msg.to.None?, rules.homestead, rules.istanbul, rules.shanghai) + AccessGas(msg.accessList) < TWO_64
  }

  /** A message that succeeds uses at least the gas of a plain transfer, less the refund, and never more than it bought. */
  lemma SomeGasUsed(w: World, pool: U64, msg: Message, env: Env, evm: Evm)
    requires |msg.data| < TWO_63 && EvmOk(evm) && AccessListFits(msg, env.rules) && Transit(w, pool, msg, env, evm).Ok?
    ensures 0 < Transit(w, pool, msg, env, evm).value.usedGas <= msg.gas <= pool && msg.gas >= TX_GAS
  {
    AtLeastTxGas(msg.data, msg.accessList, msg.to.None?, env.rules.homestead, env.rules.istanbul, env.rules.shanghai);
  }

  /** A fee cap that lets tip and base fee wrap cannot be paid for. */
  lemma PriceFits(w: World, pool: U64, msg: Message, env: Env)
    requires PreCheck(w, pool, msg, env).None? && env.rules.london && !FeesSkipped(msg, env) && !msg.isFree && msg.gas >= 2
    ensures msg.tip + env.baseFee < TWO_256
  {
    if msg.tip + env.baseFee >= TWO_256 {
      assert 2 * msg.feeCap >= TWO_256;
      MulLe(2, msg.gas, msg.feeCap);
    }
  }

  /** What the sender pays for gas is the coinbase's tip and, from London on, the base fee. */
  lemma PriceSplits(tx: Tx, env: Env, checkNonce: bool, used: nat)
    requires env.rules.london ==> tx.tip + env.baseFee < TWO_256 && env.baseFee <= tx.feeCap && tx.tip <= tx.feeCap
    ensures var msg := AsMessage(tx, env, checkNonce);
            used * msg.gasPrice == used * EffectiveTip(msg, env) + if env.rules.london then used * env.baseFee else 0
  {
    var msg := AsMessage(tx, env, checkNonce);
    if env.rules.london {
      assert msg.gasPrice == EffectiveTip(msg, env) + env.baseFee;
      Distribute(used, EffectiveTip(msg, env), env.baseFee);
    }
  }

  /** What a transaction takes out of circulation: the base fee of its gas, when nobody collects it. */
  function Burnt(env: Env, used: nat): nat {
    if env.rules.london && !env.rules.feeCollector then used * env.baseFee else 0
  }

  /** The sum of balances is unchanged before London or with a fee collector, and else falls by gasUsed * baseFee. */
  lemma ValueConserved(w: World, pool: U64, tx: Tx, env: Env, checkNonce: bool, evm: Evm)
    requires |tx.data| < TWO_63 && EvmOk(evm) && Total(w.balances) < TWO_256
    requires var msg := AsMessage(tx, env, checkNonce);
             AccessListFits(msg, env.rules) && !FeesSkipped(msg, env) && Transit(w, pool, msg, env, evm).Ok?
    ensures var a := Transit(w, pool, AsMessage(tx, env, checkNonce), env, evm).value;
            Total(a.world.balances) == Total(w.balances) - Burnt(env, a.usedGas)
  {
    var msg := AsMessage(tx, env, checkNonce);
    var a := Transit(w, pool, msg, env, evm).value;
    SomeGasUsed(w, pool, msg, env, evm);
    if env.rules.london {
      PriceFits(w, pool, msg, env);
    }
    PriceSplits(tx, env, checkNonce, 1);
    PriceSplits(tx, env, checkNonce, a.usedGas);
    TransitTotal(w, pool, msg, env, evm);
  }

  /** With the fee checks skipped the gas is free, and a fee collector is paid out of nothing. */
  lemma SkippedFees(w: World, pool: U64, tx: Tx, env: Env, checkNonce: bool, evm: Evm)
    requires |tx.data| < TWO_63 && EvmOk(evm) && env.rules.london
    requires var msg := AsMessage(tx, env, checkNonce);
             FeesSkipped(msg, env) && Transit(w, pool, msg, env, evm).Ok?
    requires Total(w.balances) + tx.gas * env.baseFee < TWO_256
    ensures var a := Transit(w, pool, AsMessage(tx, env, checkNonce), env, evm).value;
            Total(a.world.balances) == Total(w.balances) + if env.rules.feeCollector then a.usedGas * env.baseFee else 0
  {
    var msg := AsMessage(tx, env, checkNonce);
    var a := Transit(w, pool, msg, env, evm).value;
    var o := evm(Started(w, msg), msg.gas - MessageGas(msg, env.rules).value);
    var left := GasLeft(msg.gas, o, true);
    ValueCovered(w, pool, msg, env);
    TimesZero(msg.gas, msg.gasPrice);
    TimesZero(left, msg.gasPrice);
    TimesZero(a.usedGas, EffectiveTip(msg, env));
    ProductFits(a.usedGas, tx.gas, env.baseFee);
    MulLe(a.usedGas, tx.gas, env.baseFee);
    SettleTotal(o.world.balances, msg, env, left);
  }

  lemma TimesZero(n: nat, z: nat)
    requires z == 0
    ensures n * z == 0 && Mul(n, z) == 0
  {
  }

  /** With a fee collector, a transaction keeps the sum of balances exactly when its fees are checked or there is no base fee. */
  lemma ConservedExactlyWhen(w: World, pool: U64, tx: Tx, env: Env, checkNonce: bool, evm: Evm)
    requires |tx.data| < TWO_63 && EvmOk(evm) && env.rules.london && env.rules.feeCollector
    requires var msg := AsMessage(tx, env, checkNonce);
             AccessListFits(msg, env.rules) && Transit(w, pool, msg, env, evm).Ok?
    requires Total(w.balances) + tx.gas * env.baseFee < TWO_256
    ensures var msg := AsMessage(tx, env, checkNonce);
            Total(Transit(w, pool, msg, env, evm).value.world.balances) == Total(w.balances) <==> !FeesSkipped(msg, env) || env.baseFee == 0
  {
    var msg := AsMessage(tx, env, checkNonce);
    MulNonNegative(tx.gas, env.baseFee);
    SomeGasUsed(w, pool, msg, env, evm);
    if FeesSkipped(msg, env) {
      SkippedFees(w, pool, tx, env, checkNonce, evm);
      MulLe(1, Transit(w, pool, msg, env, evm).value.usedGas, env.baseFee);
    } else {
      ValueConserved(w, pool, tx, env, checkNonce, evm);
    }
  }

  ghost predicate Mints(w: World, pool: U64, tx: Tx, env: Env, evm: Evm) {
    && |tx.data| < TWO_63 && EvmOk(evm) && Transit(w, pool, AsMessage(tx, env, false), env, evm).Ok?
    && Total(Transit(w, pool, AsMessage(tx, env, false), env, evm).value.world.balances) > Total(w.balances)
  }

  lemma CollectorMints(w: World, pool: U64, tx: Tx, env: Env, evm: Evm)
    requires |tx.data| < TWO_63 && EvmOk(evm) && env.rules.london && env.rules.feeCollector && env.baseFee > 0
    requires var msg := AsMessage(tx, env, false);
             FeesSkipped(msg, env) && AccessListFits(msg, env.rules) && Transit(w, pool, msg, env, evm).Ok?
    requires Total(w.balances) + tx.gas * env.baseFee < TWO_256
    ensures Mints(w, pool, tx, env, evm)
  {
    SkippedFees(w, pool, tx, env, false, evm);
    SomeGasUsed(w, pool, AsMessage(tx, env, false), env, evm);
    MulLe(1, Transit(w, pool, AsMessage(tx, env, false), env, evm).value.usedGas, env.baseFee);
  }

  /** A call without fees and without an account behind it: the collector's balance appears from nowhere. */
  lemma CallMints() returns (w: World, tx: Tx, env: Env, evm: Evm)
    ensures Mints(w, TX_GAS, tx, env, evm)
  {
    w, env := World(map[], map[], {}), Env(Rules(true, true, true, true, true), 7, 3, 4, true);
    tx, evm := Tx(1, Some(2), 0, TX_GAS, 0, 0, 0, [], None), (w: World, g: U64) => Outcome(w, 0, 0, false);
    SumExactly(TX_GAS, 0);
    assert MessageGas(AsMessage(tx, env, false), env.rules) == Ok(TX_GAS);
    CollectorMints(w, TX_GAS, tx, env, evm);
  }
}
