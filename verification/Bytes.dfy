/** Big-endian byte strings, as `math/big` and `encoding/binary` read and write them. */
module Bytes {

  type Byte = x: int | 0 <= x < 256

  const TWO_63: int := 0x8000_0000_0000_0000
  const TWO_64: int := 0x1_0000_0000_0000_0000
  const TWO_256: int := 0x1_0000_0000_0000_0000_0000_0000_0000_0000_0000_0000_0000_0000_0000_0000_0000_0000

  type U64 = x: int | 0 <= x < TWO_64
  type U256 = x: int | 0 <= x < TWO_256

  function Pow256(k: nat): (p: nat)
    ensures p > 0
  {
    if k == 0 then 1 else 256 * Pow256(k - 1)
  }

  /** The `k` low-order bytes of `n`, most significant first. */
  function ToBytes(n: nat, k: nat): (s: seq<Byte>)
    ensures |s| == k
  {
    if k == 0 then [] else ToBytes(n / 256, k - 1) + [n % 256]
  }

  /** `new(big.Int).SetBytes(s)`. */
  function FromBytes(s: seq<Byte>): nat {
    if s == [] then 0 else 256 * FromBytes(s[..|s| - 1]) + s[|s| - 1]
  }

  lemma WordModulus()
    ensures Pow256(1) == 256 && Pow256(2) == 0x1_0000 && Pow256(4) == 0x1_0000_0000
    ensures Pow256(8) == TWO_64 && Pow256(32) == TWO_256
  {
    assert Pow256(16) == TWO_64 * TWO_64;
    assert Pow256(24) == TWO_64 * TWO_64 * TWO_64;
  }

  lemma ModShift(n: nat, m: nat)
    requires m > 0
    ensures n % (256 * m) == 256 * (n / 256 % m) + n % 256
  {
    var q, r := n / 256, n % 256;
    assert n == 256 * q + r;
    var a, b := q / m, q % m;
    assert q == a * m + b;
    assert n == a * (256 * m) + (256 * b + r);
    assert 0 <= 256 * b + r < 256 * m;
    DivModUnique(n, 256 * m, a, 256 * b + r);
  }

  lemma MulAtLeast(x: int, d: int)
    requires x >= 1 && d > 0
    ensures x * d >= d
  {
  }

  lemma DivModUnique(n: int, d: int, q: int, r: int)
    requires 0 <= r < d && n == q * d + r
    ensures n / d == q && n % d == r
  {
    var q', r' := n / d, n % d;
    var k := q' - q;
    assert k * d == q' * d - q * d;
    assert k * d == r - r';
    if k >= 1 {
      MulAtLeast(k, d);
    } else if k <= -1 {
      MulAtLeast(-k, d);
    }
  }

  /** Writing `k` bytes and reading them back keeps the number modulo 256^k. */
  lemma {:induction false} FromToBytes(n: nat, k: nat)
    ensures FromBytes(ToBytes(n, k)) == n % Pow256(k)
  {
    if k > 0 {
      FromToBytes(n / 256, k - 1);
      assert ToBytes(n, k)[..k - 1] == ToBytes(n / 256, k - 1);
      ModShift(n, Pow256(k - 1));
    }
  }

  lemma {:induction false} FromBytesBound(s: seq<Byte>)
    ensures FromBytes(s) < Pow256(|s|)
  {
    if s != [] {
      FromBytesBound(s[..|s| - 1]);
    }
  }

  /** The last `k` bytes hold the number modulo 256^k. */
  lemma {:induction false} FromBytesLow(s: seq<Byte>, k: nat)
    requires k <= |s|
    ensures FromBytes(s[|s| - k..]) == FromBytes(s) % Pow256(k)
  {
    if k > 0 {
      var front := s[..|s| - 1];
      FromBytesLow(front, k - 1);
      assert s[|s| - k..][..k - 1] == front[|front| - (k - 1)..];
      DivModUnique(FromBytes(s), 256, FromBytes(front), s[|s| - 1]);
      ModShift(FromBytes(s), Pow256(k - 1));
    }
  }

  lemma {:induction false} PowSplit(a: nat, b: nat)
    ensures Pow256(a + b) == Pow256(a) * Pow256(b)
  {
    if a > 0 {
      PowSplit(a - 1, b);
      assert 256 * (Pow256(a - 1) * Pow256(b)) == (256 * Pow256(a - 1)) * Pow256(b);
    }
  }

  lemma ModMod(n: int, m: nat, k: nat)
    requires m > 0 && k > 0
    ensures n % (m * k) % m == n % m
  {
    var q, r := n / (m * k), n % (m * k);
    assert n == q * (m * k) + r;
    assert q * (m * k) == (q * k) * m;
    var q', r' := r / m, r % m;
    assert (q * k) * m + q' * m == (q * k + q') * m;
    DivModUnique(n, m, q * k + q', r');
  }
}
