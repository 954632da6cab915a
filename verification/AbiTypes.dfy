/** Contract ABI types and the values that inhabit them (accounts/abi/type.go). */
module AbiTypes {
  import opened Bytes

  datatype Ty =
    | UintT(bits: nat)
    | IntT(bits: nat)
    | BoolT
    | AddressT
    | FixedBytesT(len: nat)
    | FunctionT
    | StringT
    | BytesT
    | SliceT(elem: Ty)
    | ArrayT(elem: Ty, size: nat)
    | TupleT(elems: seq<Ty>)

  /** Go values: integers, booleans, strings, byte arrays and slices, and lists (slice, array or struct fields by position). */
  datatype Val =
    | Num(n: int)
    | Flag(b: bool)
    | Text(text: seq<Byte>)
    | Raw(raw: seq<Byte>)
    | List(vals: seq<Val>)

  /** What `NewType` lets through: `bytesN` only for N up to 32. */
  predicate Supported(t: Ty) {
    match t
    case FixedBytesT(len) => 1 <= len <= 32
    case SliceT(elem) => Supported(elem)
    case ArrayT(elem, _) => Supported(elem)
    case TupleT(elems) => forall i | 0 <= i < |elems| :: Supported(elems[i])
    case _ => true
  }

  predicate AllSupported(ts: seq<Ty>) {
    forall i | 0 <= i < |ts| :: Supported(ts[i])
  }

  predicate RequiresLengthPrefix(t: Ty) {
    t.StringT? || t.BytesT? || t.SliceT?
  }

  predicate IsDynamic(t: Ty) {
    match t
    case TupleT(elems) => exists i | 0 <= i < |elems| :: IsDynamic(elems[i])
    case ArrayT(elem, _) => IsDynamic(elem)
    case _ => RequiresLengthPrefix(t)
  }

  /** The type and the types of what it holds in place, through arrays of fixed size and tuples. */
  ghost function Components(t: Ty): (cs: set<Ty>)
    ensures t in cs
  {
    match t
    case ArrayT(elem, _) => {t} + Components(elem)
    case TupleT(elems) => {t} + set i, c | 0 <= i < |elems| && c in Components(elems[i]) :: c
    case _ => {t}
  }

  /** A type is dynamic exactly when a string, a byte string or a slice is among its components. */
  lemma {:induction false} DynamicIs(t: Ty)
    ensures IsDynamic(t) <==> exists c | c in Components(t) :: c.StringT? || c.BytesT? || c.SliceT?
  {
    match t
    case ArrayT(elem, _) => DynamicIs(elem);
    case TupleT(elems) =>
      forall i | 0 <= i < |elems|
        ensures IsDynamic(elems[i]) <==> exists c | c in Components(elems[i]) :: c.StringT? || c.BytesT? || c.SliceT?
      {
        DynamicIs(elems[i]);
      }
    case _ =>
  }

  /** The room a type takes in the head of its frame. */
  function TypeSize(t: Ty): nat {
    match t
    case ArrayT(elem, size) =>
      if IsDynamic(elem) then 32
      else if elem.ArrayT? || elem.TupleT? then TypeSize(elem) * size
      else 32 * size
    case TupleT(elems) => if IsDynamic(t) then 32 else HeadSize(elems)
    case _ => 32
  }

  function HeadSize(ts: seq<Ty>): nat {
    if ts == [] then 0 else TypeSize(ts[0]) + HeadSize(ts[1..])
  }

  lemma MulWhole(a: nat, b: nat)
    requires a % 32 == 0
    ensures a * b % 32 == 0
  {
    var c := a / 32;
    assert a * b == (b * c) * 32;
  }

  /** Head sizes are whole words. */
  lemma {:induction false} TypeSizeWhole(t: Ty)
    ensures TypeSize(t) % 32 == 0
  {
    match t
    case ArrayT(elem, size) =>
      TypeSizeWhole(elem);
      MulWhole(TypeSize(elem), size);
      MulWhole(32, size);
    case TupleT(elems) => HeadSizeWhole(elems);
    case _ =>
  }

  lemma {:induction false} HeadSizeWhole(ts: seq<Ty>)
    ensures HeadSize(ts) % 32 == 0
  {
    if ts != [] {
      TypeSizeWhole(ts[0]);
      HeadSizeWhole(ts[1..]);
    }
  }

  /** The Go integer types: fixed width for 8, 16, 32 and 64 bits, `*big.Int` otherwise. */
  predicate Native(bits: nat) {
    bits == 8 || bits == 16 || bits == 32 || bits == 64
  }

  function Modulus(bits: nat): (m: nat)
    ensures m > 1 && m % 2 == 0
  {
    match bits
    case 8 => 0x100
    case 16 => 0x1_0000
    case 32 => 0x1_0000_0000
    case 64 => TWO_64
    case _ => TWO_256
  }

  predicate InWord(signed: bool, bits: nat, n: int) {
    var m := Modulus(bits);
    if signed then -(m / 2) <= n < m / 2 else 0 <= n < m
  }

  /** `v` is a Go value of the Go type that `t` maps to; the length of a slice is an `int`. */
  predicate HasType(t: Ty, v: Val)
    decreases v
  {
    match t
    case UintT(bits) => v.Num? && (Native(bits) ==> InWord(false, bits, v.n))
    case IntT(bits) => v.Num? && (Native(bits) ==> InWord(true, bits, v.n))
    case BoolT => v.Flag?
    case AddressT => v.Raw? && |v.raw| == 20
    case FixedBytesT(len) => v.Raw? && |v.raw| == len
    case FunctionT => v.Raw? && |v.raw| == 24
    case StringT => v.Text?
    case BytesT => v.Raw?
    case SliceT(elem) => v.List? && |v.vals| < TWO_63 && forall i | 0 <= i < |v.vals| :: HasType(elem, v.vals[i])
    case ArrayT(elem, size) => v.List? && |v.vals| == size && forall i | 0 <= i < |v.vals| :: HasType(elem, v.vals[i])
    case TupleT(elems) => v.List? && |v.vals| == |elems| && forall i | 0 <= i < |v.vals| :: HasType(elems[i], v.vals[i])
  }

  predicate HaveTypes(ts: seq<Ty>, vs: seq<Val>) {
    |ts| == |vs| && forall i | 0 <= i < |vs| :: HasType(ts[i], vs[i])
  }

  function Rep(t: Ty, n: nat): (ts: seq<Ty>)
    ensures |ts| == n && forall i | 0 <= i < n :: ts[i] == t
  {
    seq(n, _ => t)
  }

  lemma RepTail(t: Ty, n: nat)
    requires n > 0
    ensures Rep(t, n)[0] == t && Rep(t, n)[1..] == Rep(t, n - 1)
  {
  }

  /** The element size that `getTypeSize` computes is the head size of the elements laid side by side. */
  lemma {:induction false} HeadSizeRep(t: Ty, n: nat)
    ensures HeadSize(Rep(t, n)) == TypeSize(t) * n
  {
    if n > 0 {
      RepTail(t, n);
      HeadSizeRep(t, n - 1);
    }
  }

  lemma StaticArraySize(elem: Ty, size: nat)
    requires !IsDynamic(elem)
    ensures TypeSize(ArrayT(elem, size)) == HeadSize(Rep(elem, size))
  {
    HeadSizeRep(elem, size);
  }
}
