/** Account balances in 256-bit arithmetic, and their sum. */
module Balances {
  import opened Bytes

  type Address = nat
  type Ledger = map<Address, U256>

  function Get(m: Ledger, a: Address): U256 {
    if a in m then m[a] else 0
  }

  /** `AddBalance`: wrapping. */
  function Credit(m: Ledger, a: Address, v: U256): Ledger {
    var b := Get(m, a) + v;
    m[a := if b < TWO_256 then b else b - TWO_256]
  }

  /** `SubBalance`: wrapping. */
  function Debit(m: Ledger, a: Address, v: U256): Ledger {
    var b := Get(m, a) - v;
    m[a := if b >= 0 then b else b + TWO_256]
  }

  /** `uint256.Mul`: the product modulo 2^256. */
  function Mul(a: nat, b: nat): U256 {
    if a * b < TWO_256 then a * b else a * b % TWO_256
  }

  /** Credits and debits are arithmetic modulo 2^256 on the one account. */
  lemma Wraps(m: Ledger, a: Address, v: U256, x: Address)
    ensures Get(Credit(m, a, v), x) == (Get(m, x) + if x == a then v else 0) % TWO_256
    ensures Get(Debit(m, a, v), x) == (Get(m, x) - if x == a then v else 0) % TWO_256
  {
    var b := Get(m, x);
    DivModUnique(b, TWO_256, 0, b);
    DivModUnique(b + v, TWO_256, if b + v < TWO_256 then 0 else 1, if b + v < TWO_256 then b + v else b + v - TWO_256);
    DivModUnique(b - v, TWO_256, if b >= v then 0 else -1, if b >= v then b - v else b - v + TWO_256);
  }

  lemma MulWraps(n: nat, k: nat)
    ensures Mul(n, k) == n * k % TWO_256
  {
    if n * k < TWO_256 {
      DivModUnique(n * k, TWO_256, 0, n * k);
    }
  }

  /** The sum of all balances. */
  ghost function Total(m: Ledger): nat {
    if m == map[] then 0 else var a :| a in m; m[a] + Total(m - {a})
  }

  lemma {:induction false} TotalRemove(m: Ledger, a: Address)
    requires a in m
    ensures Total(m) == m[a] + Total(m - {a})
  {
    var c :| c in m && Total(m) == m[c] + Total(m - {c});
    if c != a {
      TotalRemove(m - {c}, a);
      TotalRemove(m - {a}, c);
      assert m - {c} - {a} == m - {a} - {c};
    }
  }

  /** One balance set: the sum changes by the difference. */
  lemma TotalSet(m: Ledger, a: Address, v: U256)
    ensures Total(m[a := v]) == Total(m) - Get(m, a) + v && Get(m, a) <= Total(m)
  {
    TotalRemove(m[a := v], a);
    assert m[a := v] - {a} == m - {a};
    if a in m {
      TotalRemove(m, a);
    } else {
      assert m - {a} == m;
    }
  }

  lemma CreditTotal(m: Ledger, a: Address, v: U256)
    requires Total(m) + v < TWO_256
    ensures Total(Credit(m, a, v)) == Total(m) + v
  {
    TotalSet(m, a, Get(Credit(m, a, v), a));
  }

  lemma DebitTotal(m: Ledger, a: Address, v: U256)
    requires v <= Get(m, a)
    ensures Total(Debit(m, a, v)) == Total(m) - v
  {
    TotalSet(m, a, Get(Debit(m, a, v), a));
  }
}
