/** One message applied to the world (internal/state_transition.go): checks, buying gas, refund and settlement. */
module Transition {
  import opened Wrappers
  import opened Bytes
  import opened Balances
  import opened Intrinsic

  const REFUND_QUOTIENT: nat := 2
  const REFUND_QUOTIENT_EIP3529: nat := 5

  /** Balances, nonces, and the accounts that have code. */
  datatype World = World(balances: Ledger, nonces: map<Address, U64>, contracts: set<Address>)

  datatype Rules = Rules(homestead: bool, istanbul: bool, london: bool, shanghai: bool, feeCollector: bool)

  datatype Env = Env(rules: Rules, baseFee: U256, coinbase: Address, collector: Address, noBaseFee: bool)

  datatype Message = Message(
    from: Address, to: Option<Address>, nonce: U64, checkNonce: bool, isFree: bool, gas: U64,
    gasPrice: U256, feeCap: U256, tip: U256, value: U256, data: seq<Byte>, accessList: Option<AccessList>)

  datatype TxError =
    | NonceTooHigh | NonceTooLow | NonceMax | SenderNoEOA
    | TipAboveFeeCap | FeeCapTooLow | InsufficientFunds | GasLimitReached
    | GasOverflow | IntrinsicGasTooLow

  /** What the EVM leaves behind: a world, the gas it did not use, its refund counter, and whether it failed. */
  datatype Outcome = Outcome(world: World, gasLeft: U64, refund: U64, failed: bool)

  type Evm = (World, U64) -> Outcome

  datatype Applied = Applied(world: World, pool: U64, usedGas: U64, failed: bool)

  /** All that is assumed of the EVM: it returns no more gas than it got, and moves value without making or losing any. */
  ghost predicate EvmOk(evm: Evm) {
    forall w: World, g: U64 :: evm(w, g).gasLeft <= g && Total(evm(w, g).world.balances) == Total(w.balances)
  }

  function NonceOf(w: World, a: Address): U64 {
    if a in w.nonces then w.nonces[a] else 0
  }

  function NonceCheck(w: World, msg: Message): Option<TxError> {
    var stNonce := NonceOf(w, msg.from);
    if !msg.checkNonce then None
    else if stNonce < msg.nonce then Some(NonceTooHigh)
    else if stNonce > msg.nonce then Some(NonceTooLow)
    else if stNonce == MAX_U64 then Some(NonceMax)
    else if msg.from in w.contracts then Some(SenderNoEOA)
    else None
  }

  /** The fee checks are skipped for a call that names no fees where the base fee is switched off. */
  predicate FeesSkipped(msg: Message, env: Env) {
    env.noBaseFee && msg.feeCap == 0 && msg.tip == 0
  }

  function FeeCheck(msg: Message, env: Env): Option<TxError> {
    if !env.rules.london || FeesSkipped(msg, env) then None
    else if msg.feeCap < msg.tip then Some(TipAboveFeeCap)
    else if msg.feeCap < env.baseFee && !msg.isFree then Some(FeeCapTooLow)
    else None
  }

  /** `buyGas` without its effects. */
  function FundsCheck(w: World, pool: U64, msg: Message): Option<TxError> {
    if msg.gas * msg.gasPrice >= TWO_256 then Some(InsufficientFunds)
    else if msg.gas * msg.feeCap + msg.value >= TWO_256 then Some(InsufficientFunds)
    else if Get(w.balances, msg.from) < msg.gas * msg.feeCap + msg.value then Some(InsufficientFunds)
    else if pool < msg.gas then Some(GasLimitReached)
    else None
  }

  /** `preCheck`. */
  function PreCheck(w: World, pool: U64, msg: Message, env: Env): Option<TxError> {
    if NonceCheck(w, msg).Some? then NonceCheck(w, msg)
    else if FeeCheck(msg, env).Some? then FeeCheck(msg, env)
    else FundsCheck(w, pool, msg)
  }

  function Bought(w: World, msg: Message): World
    requires msg.gas * msg.gasPrice < TWO_256
  {
    MulNonNegative(msg.gas, msg.gasPrice);
    w.(balances := Debit(w.balances, msg.from, msg.gas * msg.gasPrice))
  }

  lemma MulNonNegative(a: nat, b: nat)
    ensures a * b >= 0
  {
  }

  /** The world the EVM starts from: gas bought and, for a call, the nonce raised. */
  function Started(w: World, msg: Message): World
    requires msg.gas * msg.gasPrice < TWO_256
  {
    var w' := Bought(w, msg);
    var n := NonceOf(w', msg.from);
    if msg.to.None? then w' else w'.(nonces := w'.nonces[msg.from := if n == MAX_U64 then 0 else n + 1])
  }

  function MessageGas(msg: Message, rules: Rules): Result<U64, Overflow>
    requires |msg.data| < TWO_63
  {
    Intrinsic.Intrinsic(msg.data, msg.accessList, msg.to.None?, rules.homestead, rules.istanbul, rules.shanghai)
  }

  lemma CapFits(used: nat, quotient: nat)
    requires quotient > 0
    ensures 0 <= used / quotient <= used && (quotient > 1 && used > 0 ==> used / quotient < used)
  {
    var q := used / quotient;
    assert used == q * quotient + used % quotient;
    if quotient > 1 {
      MulLe(2, quotient, q);
    }
  }

  /** The refund: the counter, capped by a share of the gas used. */
  function Refunded(used: nat, quotient: nat, counter: nat): (r: nat)
    requires quotient > 0
    ensures r <= used && r <= counter && r <= used / quotient && (quotient > 1 && used > 0 ==> r < used)
  {
    CapFits(used, quotient);
    if used / quotient > counter then counter else used / quotient
  }

  /** The refund is the smaller of the counter and the largest number of units within the share. */
  lemma RefundedIs(used: nat, quotient: nat, counter: nat)
    requires quotient > 0
    ensures var r := Refunded(used, quotient, counter);
            r <= counter && quotient * r <= used && (r == counter || used < quotient * (r + 1))
  {
    var q, r := used / quotient, Refunded(used, quotient, counter);
    assert used == quotient * q + used % quotient;
    assert quotient * (q + 1) == quotient * q + quotient;
    PriceLe(quotient, r, q);
  }

  /** Gas left after the refund. */
  function GasLeft(initial: U64, o: Outcome, london: bool): (g: U64)
    requires o.gasLeft <= initial
    ensures o.gasLeft <= g <= initial && (o.gasLeft < initial ==> g < initial)
  {
    o.gasLeft + Refunded(initial - o.gasLeft, if london then REFUND_QUOTIENT_EIP3529 else REFUND_QUOTIENT, o.refund)
  }

  function EffectiveTip(msg: Message, env: Env): U256 {
    if !env.rules.london then msg.gasPrice
    else if msg.feeCap <= env.baseFee then 0
    else if msg.tip > msg.feeCap - env.baseFee then msg.feeCap - env.baseFee
    else msg.tip
  }

  predicate Collects(msg: Message, env: Env) {
    !msg.isFree && env.rules.london && env.rules.feeCollector
  }

  /** Settlement: unused gas back to the sender, the tip to the coinbase, the base fee to the collector. */
  function Settle(b: Ledger, msg: Message, env: Env, left: U64): Ledger
    requires left <= msg.gas
  {
    var used := msg.gas - left;
    var b1 := Credit(b, msg.from, Mul(left, msg.gasPrice));
    var b2 := Credit(b1, env.coinbase, Mul(used, EffectiveTip(msg, env)));
    if Collects(msg, env) then Credit(b2, env.collector, Mul(used, env.baseFee)) else b2
  }

  /** Why a message is refused before the EVM runs, if it is. */
  function Refusal(w: World, pool: U64, msg: Message, env: Env): Option<TxError>
    requires |msg.data| < TWO_63
  {
    if PreCheck(w, pool, msg, env).Some? then PreCheck(w, pool, msg, env)
    else if MessageGas(msg, env.rules).Err? then Some(GasOverflow)
    else if msg.gas < MessageGas(msg, env.rules).value then Some(IntrinsicGasTooLow)
    else None
  }

  /** `TransitionDb`, with refunds and without bailout. */
  function Transit(w: World, pool: U64, msg: Message, env: Env, evm: Evm): Result<Applied, TxError>
    requires |msg.data| < TWO_63
    requires EvmOk(evm)
  {
    if Refusal(w, pool, msg, env).Some? then Err(Refusal(w, pool, msg, env).value)
    else Ok(Finished(pool, msg, env, evm(Started(w, msg), msg.gas - MessageGas(msg, env.rules).value)))
  }

  /** The refund and the settlement, for a message that had `pool` before it. */
  function Finished(pool: U64, msg: Message, env: Env, o: Outcome): Applied
    requires msg.gas <= pool && o.gasLeft <= msg.gas
  {
    var left := GasLeft(msg.gas, o, env.rules.london);
    Applied(o.world.(balances := Settle(o.world.balances, msg, env, left)), pool - (msg.gas - left), msg.gas - left, o.failed)
  }

  // What a successful message guarantees.

  lemma ProductFits(n: nat, gas: nat, price: nat)
    requires n <= gas && gas * price < TWO_256
    ensures n * price < TWO_256 && Mul(n, price) == n * price
  {
    MulLe(n, gas, price);
  }

  lemma PriceLe(gas: nat, a: nat, b: nat)
    requires a <= b
    ensures gas * a <= gas * b
  {
    MulLe(a, b, gas);
  }

  /** The sender can still cover the value sent once the gas is bought. */
  lemma ValueCovered(w: World, pool: U64, msg: Message, env: Env)
    requires PreCheck(w, pool, msg, env).None? && msg.gasPrice <= msg.feeCap
    ensures Get(Started(w, msg).balances, msg.from) >= msg.value
    ensures Total(Started(w, msg).balances) == Total(w.balances) - msg.gas * msg.gasPrice
  {
    PriceLe(msg.gas, msg.gasPrice, msg.feeCap);
    DebitTotal(w.balances, msg.from, msg.gas * msg.gasPrice);
  }

  /** No product of the settlement wraps. */
  lemma NoProductWraps(w: World, pool: U64, msg: Message, env: Env, used: U64)
    requires PreCheck(w, pool, msg, env).None? && used <= msg.gas
    ensures Mul(msg.gas - used, msg.gasPrice) == (msg.gas - used) * msg.gasPrice
    ensures Mul(used, EffectiveTip(msg, env)) == used * EffectiveTip(msg, env)
    ensures Collects(msg, env) && !FeesSkipped(msg, env) ==> Mul(used, env.baseFee) == used * env.baseFee
  {
    ProductFits(msg.gas - used, msg.gas, msg.gasPrice);
    var tip := EffectiveTip(msg, env);
    if env.rules.london {
      PriceLe(msg.gas, tip, msg.feeCap);
    }
    ProductFits(used, msg.gas, tip);
    if Collects(msg, env) && !FeesSkipped(msg, env) {
      PriceLe(msg.gas, env.baseFee, msg.feeCap);
      ProductFits(used, msg.gas, env.baseFee);
    }
  }

  /** What the settlement pays out for the gas used. */
  function PaidOut(msg: Message, env: Env, used: nat): nat {
    used * EffectiveTip(msg, env) + if Collects(msg, env) then used * env.baseFee else 0
  }

  /** The sum of balances after settlement. */
  lemma SettleTotal(b: Ledger, msg: Message, env: Env, left: U64)
    requires left <= msg.gas
    requires var used := msg.gas - left;
             && Mul(left, msg.gasPrice) == left * msg.gasPrice && Mul(used, EffectiveTip(msg, env)) == used * EffectiveTip(msg, env)
             && (Collects(msg, env) ==> Mul(used, env.baseFee) == used * env.baseFee)
    requires Total(b) + left * msg.gasPrice + PaidOut(msg, env, msg.gas - left) < TWO_256
    ensures Total(Settle(b, msg, env, left)) == Total(b) + left * msg.gasPrice + PaidOut(msg, env, msg.gas - left)
  {
    var used := msg.gas - left;
    MulNonNegative(left, msg.gasPrice);
    MulNonNegative(used, EffectiveTip(msg, env));
    MulNonNegative(used, env.baseFee);
    var b1 := Credit(b, msg.from, Mul(left, msg.gasPrice));
    CreditTotal(b, msg.from, Mul(left, msg.gasPrice));
    var b2 := Credit(b1, env.coinbase, Mul(used, EffectiveTip(msg, env)));
    CreditTotal(b1, env.coinbase, Mul(used, EffectiveTip(msg, env)));
    if Collects(msg, env) {
      CreditTotal(b2, env.collector, Mul(used, env.baseFee));
    }
  }

  /** No more is paid out than the gas cost, when the price covers tip and base fee. */
  lemma PaidOutLe(msg: Message, env: Env, used: nat)
    requires EffectiveTip(msg, env) + (if Collects(msg, env) then env.baseFee else 0) <= msg.gasPrice
    ensures PaidOut(msg, env, used) <= used * msg.gasPrice
  {
    var fee := if Collects(msg, env) then env.baseFee else 0;
    PriceLe(used, EffectiveTip(msg, env) + fee, msg.gasPrice);
    Distribute(used, EffectiveTip(msg, env), fee);
  }

  lemma Distribute(n: nat, a: nat, b: nat)
    ensures n * (a + b) == n * a + n * b
  {
  }

  lemma SplitGas(gas: nat, left: nat, price: nat)
    requires left <= gas
    ensures gas * price == left * price + (gas - left) * price
  {
  }

  /** The settlement after the gas was bought from a sum of `start`. */
  lemma SettleAfter(start: nat, b: Ledger, msg: Message, env: Env, left: U64)
    requires left <= msg.gas && start < TWO_256 && Total(b) == start - msg.gas * msg.gasPrice
    requires var used := msg.gas - left;
             && Mul(left, msg.gasPrice) == left * msg.gasPrice && Mul(used, EffectiveTip(msg, env)) == used * EffectiveTip(msg, env)
             && (Collects(msg, env) ==> Mul(used, env.baseFee) == used * env.baseFee)
    requires EffectiveTip(msg, env) + (if Collects(msg, env) then env.baseFee else 0) <= msg.gasPrice
    ensures Total(Settle(b, msg, env, left)) == start - (msg.gas - left) * msg.gasPrice + PaidOut(msg, env, msg.gas - left)
  {
    SplitGas(msg.gas, left, msg.gasPrice);
    PaidOutLe(msg, env, msg.gas - left);
    SettleTotal(b, msg, env, left);
  }

  /** The sum of balances falls by what the gas used cost, less what the settlement paid out. */
  lemma TransitTotal(w: World, pool: U64, msg: Message, env: Env, evm: Evm)
    requires |msg.data| < TWO_63 && EvmOk(evm) && Transit(w, pool, msg, env, evm).Ok?
    requires msg.gasPrice <= msg.feeCap && !FeesSkipped(msg, env)
    requires Total(w.balances) < TWO_256
    requires EffectiveTip(msg, env) + (if Collects(msg, env) then env.baseFee else 0) <= msg.gasPrice
    ensures var a := Transit(w, pool, msg, env, evm).value;
            Total(a.world.balances) == Total(w.balances) - a.usedGas * msg.gasPrice + PaidOut(msg, env, a.usedGas)
  {
    var a := Transit(w, pool, msg, env, evm).value;
    var o := evm(Started(w, msg), msg.gas - MessageGas(msg, env.rules).value);
    var left := GasLeft(msg.gas, o, env.rules.london);
    ValueCovered(w, pool, msg, env);
    NoProductWraps(w, pool, msg, env, a.usedGas);
    SettleAfter(Total(w.balances), o.world.balances, msg, env, left);
  }

  // Nonces.

  /** The EVM lowers no nonce, and raises the sender's when it creates a contract. */
  ghost predicate KeepsNonces(evm: Evm, from: Address, create: bool) {
    forall w: World, g: U64, a: Address ::
      && NonceOf(evm(w, g).world, a) >= NonceOf(w, a)
      && (create && a == from && NonceOf(w, a) < MAX_U64 ==> NonceOf(evm(w, g).world, a) > NonceOf(w, a))
  }

  /** A message that succeeds spends its nonce and lowers nobody's. */
  lemma TransitNonces(w: World, pool: U64, msg: Message, env: Env, evm: Evm, x: Address)
    requires |msg.data| < TWO_63 && EvmOk(evm) && Transit(w, pool, msg, env, evm).Ok? && msg.checkNonce
    requires KeepsNonces(evm, msg.from, msg.to.None?)
    ensures var w' := Transit(w, pool, msg, env, evm).value.world;
            NonceOf(w', x) >= NonceOf(w, x) && NonceOf(w, msg.from) == msg.nonce < NonceOf(w', msg.from)
  {
    var w0 := Started(w, msg);
    var o := evm(w0, msg.gas - MessageGas(msg, env.rules).value);
    assert NonceOf(w0, x) >= NonceOf(w, x);
    assert NonceOf(o.world, x) >= NonceOf(w0, x) && NonceOf(o.world, msg.from) >= NonceOf(w0, msg.from);
    assert Transit(w, pool, msg, env, evm).value.world.nonces == o.world.nonces;
  }

  /** A message that succeeded is refused from then on, whatever the EVM does with it. */
  lemma NoReplay(w: World, pool: U64, msg: Message, env: Env, evm: Evm, later: World, pool': U64, env': Env, evm': Evm)
    requires |msg.data| < TWO_63 && EvmOk(evm) && EvmOk(evm') && Transit(w, pool, msg, env, evm).Ok? && msg.checkNonce
    requires KeepsNonces(evm, msg.from, msg.to.None?)
    requires NonceOf(later, msg.from) >= NonceOf(Transit(w, pool, msg, env, evm).value.world, msg.from)
    ensures Transit(later, pool', msg, env', evm') == Err(NonceTooLow)
  {
    TransitNonces(w, pool, msg, env, evm, msg.from);
  }
}
