/** `IntrinsicGas` (internal/state_transition.go): the gas a message pays before it runs, in 64-bit arithmetic. */
module Intrinsic {
  import opened Wrappers
  import opened Bytes

  const MAX_U64: int := TWO_64 - 1
  const TX_GAS: int := 21000
  const TX_GAS_CONTRACT_CREATION: int := 53000
  const TX_DATA_ZERO_GAS: int := 4
  const TX_DATA_NON_ZERO_GAS_FRONTIER: int := 68
  const TX_DATA_NON_ZERO_GAS_EIP2028: int := 16
  const TX_ACCESS_LIST_ADDRESS_GAS: int := 2400
  const TX_ACCESS_LIST_STORAGE_KEY_GAS: int := 1900
  const INIT_CODE_WORD_GAS: int := 2

  /** For each address of an access list, how many storage keys it names. */
  type AccessList = seq<nat>

  datatype Overflow = GasUintOverflow

  function NonZero(data: seq<Byte>): (n: nat)
    ensures n <= |data|
  {
    if data == [] then 0 else NonZero(data[..|data| - 1]) + if data[|data| - 1] != 0 then 1 else 0
  }

  function KeyCount(al: AccessList): nat {
    if al == [] then 0 else KeyCount(al[..|al| - 1]) + al[|al| - 1]
  }

  /** `toWordSize`. */
  function WordSize(size: U64): (w: nat)
    ensures 32 * w >= size && (w > 0 ==> 32 * (w - 1) < size)
  {
    if size > MAX_U64 - 31 then MAX_U64 / 32 + 1 else (size + 31) / 32
  }

  /** The price of the transaction and its data, without bound. */
  function DataGas(data: seq<Byte>, create: bool, homestead: bool, eip2028: bool, eip3860: bool): (g: nat)
    requires |data| < TWO_63
    ensures g >= TX_GAS
  {
    var start := if create && homestead then TX_GAS_CONTRACT_CREATION else TX_GAS;
    var nz := NonZero(data);
    var nonZeroGas := if eip2028 then nz * TX_DATA_NON_ZERO_GAS_EIP2028 else nz * TX_DATA_NON_ZERO_GAS_FRONTIER;
    var wordGas := if create && eip3860 then WordSize(|data|) * INIT_CODE_WORD_GAS else 0;
    start + nonZeroGas + (|data| - nz) * TX_DATA_ZERO_GAS + wordGas
  }

  /** The price of an access list, without bound. */
  function AccessGas(accessList: Option<AccessList>): nat {
    if accessList.None? then 0
    else |accessList.value| * TX_ACCESS_LIST_ADDRESS_GAS + KeyCount(accessList.value) * TX_ACCESS_LIST_STORAGE_KEY_GAS
  }

  /** What `IntrinsicGas` returns: the data price is checked against 2^64, the access list price wraps. */
  function Intrinsic(data: seq<Byte>, accessList: Option<AccessList>, create: bool, homestead: bool, eip2028: bool, eip3860: bool): Result<U64, Overflow>
    requires |data| < TWO_63
  {
    Sum(DataGas(data, create, homestead, eip2028, eip3860), AccessGas(accessList))
  }

  function Sum(dataGas: nat, accessGas: nat): Result<U64, Overflow> {
    if dataGas > MAX_U64 then Err(GasUintOverflow) else Ok((dataGas + accessGas) % TWO_64)
  }

  /** The division the code uses to test for overflow is exact. */
  lemma RoomFor(gas: nat, n: nat, price: nat)
    requires gas <= MAX_U64 && price > 0
    ensures (MAX_U64 - gas) / price < n <==> gas + n * price > MAX_U64
  {
    var room := MAX_U64 - gas;
    var q := room / price;
    assert q * price <= room < (q + 1) * price by {
      assert room == q * price + room % price;
      assert (q + 1) * price == q * price + price;
    }
    if n <= q {
      MulLe(n, q, price);
    } else {
      MulLe(q + 1, n, price);
    }
  }

  lemma MulLe(a: nat, b: nat, c: nat)
    requires a <= b
    ensures a * c <= b * c
  {
  }

  lemma AddWrapped(a: nat, b: nat)
    ensures (a % TWO_64 + b % TWO_64) % TWO_64 == (a + b) % TWO_64
  {
    var x, y := a / TWO_64, b / TWO_64;
    var r := a % TWO_64 + b % TWO_64;
    if r < TWO_64 {
      DivModUnique(a + b, TWO_64, x + y, r);
    } else {
      DivModUnique(a + b, TWO_64, x + y + 1, r - TWO_64);
      DivModUnique(r, TWO_64, 1, r - TWO_64);
    }
  }

  lemma AddAccess(g: nat, a: nat, k: nat)
    requires g < TWO_64
    ensures ((g + a % TWO_64) % TWO_64 + k % TWO_64) % TWO_64 == (g + (a + k)) % TWO_64
  {
    DivModUnique(g, TWO_64, 0, g);
    AddWrapped(g, a);
    AddWrapped(g + a, k);
  }

  method CountNonZero(data: seq<Byte>) returns (nz: nat)
    ensures nz == NonZero(data)
  {
    nz := 0;
    for i := 0 to |data|
      invariant nz == NonZero(data[..i])
    {
      assert data[..i + 1][..i] == data[..i];
      if data[i] != 0 {
        nz := nz + 1;
      }
    }
    assert data[..|data|] == data;
  }

  /** `n` units more, unless the sum would pass 2^64 - 1. */
  method Charge(gas: U64, n: nat, price: nat) returns (r: Result<U64, Overflow>)
    requires price > 0
    ensures r == if gas + n * price > MAX_U64 then Err(GasUintOverflow) else Ok(gas + n * price)
  {
    RoomFor(gas, n, price);
    if (MAX_U64 - gas) / price < n {
      return Err(GasUintOverflow);
    }
    r := Ok(gas + n * price);
  }

  /** The data part of `IntrinsicGas`. */
  method DataCost(data: seq<Byte>, create: bool, homestead: bool, eip2028: bool, eip3860: bool) returns (r: Result<U64, Overflow>)
    requires |data| < TWO_63
    ensures var g := DataGas(data, create, homestead, eip2028, eip3860);
            r == if g > MAX_U64 then Err(GasUintOverflow) else Ok(g)
  {
    var gas: U64 := if create && homestead then TX_GAS_CONTRACT_CREATION else TX_GAS;
    if |data| > 0 {
      var nz := CountNonZero(data);
      if eip2028 {
        gas :- Charge(gas, nz, TX_DATA_NON_ZERO_GAS_EIP2028);
      } else {
        gas :- Charge(gas, nz, TX_DATA_NON_ZERO_GAS_FRONTIER);
      }
      gas :- Charge(gas, |data| - nz, TX_DATA_ZERO_GAS);
      if create && eip3860 {
        gas :- Charge(gas, WordSize(|data|), INIT_CODE_WORD_GAS);
      }
    }
    r := Ok(gas);
  }

  /** `AccessList.StorageKeys`. */
  method StorageKeys(al: AccessList) returns (sum: nat)
    ensures sum == KeyCount(al)
  {
    sum := 0;
    for i := 0 to |al|
      invariant sum == KeyCount(al[..i])
    {
      assert al[..i + 1][..i] == al[..i];
      sum := sum + al[i];
    }
    assert al[..|al|] == al;
  }

  /** `IntrinsicGas`. */
  method IntrinsicGas(data: seq<Byte>, accessList: Option<AccessList>, create: bool, homestead: bool, eip2028: bool, eip3860: bool)
    returns (r: Result<U64, Overflow>)
    requires |data| < TWO_63
    ensures r == Intrinsic(data, accessList, create, homestead, eip2028, eip3860)
  {
    var gas :- DataCost(data, create, homestead, eip2028, eip3860);
    r := AddAccessList(gas, accessList);
  }

  /** The access list part: no check, so the sum wraps. */
  method AddAccessList(start: U64, accessList: Option<AccessList>) returns (r: Result<U64, Overflow>)
    ensures r == Ok((start + AccessGas(accessList)) % TWO_64)
  {
    var gas := start;
    if accessList.Some? {
      var keys := StorageKeys(accessList.value);
      gas := (gas + |accessList.value| * TX_ACCESS_LIST_ADDRESS_GAS % TWO_64) % TWO_64;
      gas := (gas + keys * TX_ACCESS_LIST_STORAGE_KEY_GAS % TWO_64) % TWO_64;
      AddAccess(start, |accessList.value| * TX_ACCESS_LIST_ADDRESS_GAS, keys * TX_ACCESS_LIST_STORAGE_KEY_GAS);
    } else {
      DivModUnique(gas, TWO_64, 0, gas);
    }
    r := Ok(gas);
  }

  ghost function NonZeroAt(data: seq<Byte>): set<int> {
    set i | 0 <= i < |data| && data[i] != 0
  }

  lemma {:induction false} NonZeroIs(data: seq<Byte>)
    ensures NonZero(data) == |NonZeroAt(data)|
  {
    if data != [] {
      var n := |data| - 1;
      NonZeroIs(data[..n]);
      assert NonZeroAt(data) == NonZeroAt(data[..n]) + if data[n] != 0 then {n} else {};
    }
  }

  lemma {:induction false} KeyCountConcat(a: AccessList, b: AccessList)
    ensures KeyCount(a + b) == KeyCount(a) + KeyCount(b)
  {
    if b == [] {
      assert a + b == a;
    } else {
      KeyCountConcat(a, b[..|b| - 1]);
      assert (a + b)[..|a + b| - 1] == a + b[..|b| - 1];
    }
  }

  /**
   The price by its rates: 21000, or 53000 for a creation since Homestead; 16, before Istanbul 68, for a byte that is not
   zero and 4 for one that is; 2 a word of init code since Shanghai; 2400 an address and 1900 a key of the access list.
   */
  lemma PriceIs(data: seq<Byte>, accessList: Option<AccessList>, create: bool, homestead: bool, eip2028: bool, eip3860: bool, words: nat)
    requires |data| < TWO_63 && 32 * words >= |data| && (words > 0 ==> 32 * (words - 1) < |data|)
    ensures var nz := |NonZeroAt(data)|;
            DataGas(data, create, homestead, eip2028, eip3860) ==
            (if create && homestead then 53000 else 21000) + (if eip2028 then 16 else 68) * nz + 4 * (|data| - nz) + (if create && eip3860 then 2 * words else 0)
    ensures AccessGas(accessList) == if accessList.None? then 0 else 2400 * |accessList.value| + 1900 * KeyCount(accessList.value)
    ensures KeyCount([]) == 0 && forall k: nat :: KeyCount([k]) == k
  {
    NonZeroIs(data);
    assert WordSize(|data|) == words;
  }

  /** The intrinsic gas fails exactly when the data price passes 64 bits, and is the true price exactly when that is below 2^64. */
  lemma TruePriceExactly(data: seq<Byte>, accessList: Option<AccessList>, create: bool, homestead: bool, eip2028: bool, eip3860: bool)
    requires |data| < TWO_63
    ensures var d, a := DataGas(data, create, homestead, eip2028, eip3860), AccessGas(accessList);
            var r := Intrinsic(data, accessList, create, homestead, eip2028, eip3860);
            (r == Ok(d + a) <==> d + a < TWO_64) && (r.Err? <==> d >= TWO_64) && (r.Ok? ==> r.value == (d + a) % TWO_64)
  {
    SumExactly(DataGas(data, create, homestead, eip2028, eip3860), AccessGas(accessList));
  }

  lemma SumExactly(dataGas: nat, accessGas: nat)
    ensures Sum(dataGas, accessGas) == Ok(dataGas + accessGas) <==> dataGas + accessGas < TWO_64
  {
    if dataGas + accessGas < TWO_64 {
      DivModUnique(dataGas + accessGas, TWO_64, 0, dataGas + accessGas);
    }
  }

  /** Then no message is cheaper than a plain transfer. */
  lemma AtLeastTxGas(data: seq<Byte>, accessList: Option<AccessList>, create: bool, homestead: bool, eip2028: bool, eip3860: bool)
    requires |data| < TWO_63 && DataGas(data, create, homestead, eip2028, eip3860) + AccessGas(accessList) < TWO_64
    ensures var r := Intrinsic(data, accessList, create, homestead, eip2028, eip3860);
            r.Ok? && r.value >= TX_GAS
  {
    TruePriceExactly(data, accessList, create, homestead, eip2028, eip3860);
  }

  /** Every slice of the list can be allocated: 48 bytes an address, 32 bytes a key, below 2^48 bytes in all. */
  predicate Allocatable(al: AccessList) {
    48 * |al| < 0x1_0000_0000_0000 && forall i | 0 <= i < |al| :: 32 * al[i] < 0x1_0000_0000_0000
  }

  lemma {:induction false} KeyCountRep(n: nat, k: nat)
    ensures KeyCount(seq(n, _ => k)) == n * k
  {
    if n > 0 {
      KeyCountRep(n - 1, k);
      assert seq(n, _ => k)[..n - 1] == seq(n - 1, _ => k);
      assert n * k == (n - 1) * k + k;
    }
  }

  /** An access list, of slices that Go can allocate, whose price wraps to make a message free of intrinsic gas. */
  lemma AccessListWraps() returns (al: AccessList)
    ensures Allocatable(al) && Intrinsic([], Some(al), false, true, true, true) == Ok(0)
  {
    var n, k, last := 2147483657, 113025453, 904203637;
    al := seq(n, _ => k) + [last];
    assert al[..n] == seq(n, _ => k);
    KeyCountRep(n, k);
    assert KeyCount(al) == n * k + last;
    DivModUnique(TX_GAS + AccessGas(Some(al)), TWO_64, 25, 0);
  }
}
