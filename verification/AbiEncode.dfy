/** The encoder: `Type.pack`, `packElement` and `Arguments.Pack` (accounts/abi/type.go, pack.go, argument.go). */
module AbiEncode {
  import opened Wrappers
  import opened Bytes
  import opened AbiTypes
  import opened AbiLayout

  datatype EncodeError = TypeMismatch | CountMismatch

  function Zeros(n: nat): (s: seq<Byte>)
    ensures |s| == n
  {
    seq(n, _ => 0)
  }

  /** The next multiple of the word size. */
  function Padded(l: nat): (p: nat)
    ensures l <= p < l + 32 && p % 32 == 0
  {
    (l + 31) / 32 * 32
  }

  function RightPad(s: seq<Byte>, l: nat): (w: seq<Byte>)
    requires |s| <= l
    ensures |w| == l && w[..|s|] == s
  {
    s + Zeros(l - |s|)
  }

  /** `packBytesSlice`: a length word, then the bytes padded on the right to whole words. */
  function PackBytes(s: seq<Byte>): (w: seq<Byte>)
    ensures |w| >= 32 + |s|
    ensures w[..32] == PackNum(|s|) && w[32..32 + |s|] == s
  {
    PackNum(|s|) + RightPad(s, Padded(|s|))
  }

  /** `packElement`, for values that pass the type check. */
  function PackElement(t: Ty, v: Val): (w: seq<Byte>)
    requires Supported(t) && HasType(t, v)
    requires !t.SliceT? && !t.ArrayT? && !t.TupleT?
    ensures !IsDynamic(t) ==> |w| == 32
  {
    match t
    case UintT(_) => PackNum(v.n)
    case IntT(_) => PackNum(v.n)
    case BoolT => PackNum(if v.b then 1 else 0)
    case AddressT => Zeros(12) + v.raw
    case FixedBytesT(_) => RightPad(v.raw, 32)
    case FunctionT => RightPad(v.raw, 32)
    case StringT => PackBytes(v.text)
    case BytesT => PackBytes(v.raw)
  }

  /** A length word, the bytes, and zeros up to the next whole word. */
  predicate IsPadded(s: seq<Byte>, w: seq<Byte>) {
    && |w| % 32 == 0 && 32 + |s| <= |w| < 64 + |s| && w[..32] == PackNum(|s|) && w[32..32 + |s|] == s
    && forall i | 32 + |s| <= i < |w| :: w[i] == 0
  }

  lemma PackBytesIs(s: seq<Byte>)
    ensures IsPadded(s, PackBytes(s))
  {
    var fill := Zeros(Padded(|s|) - |s|);
    assert PackBytes(s) == PackNum(|s|) + (s + fill);
    SumWhole(32, Padded(|s|));
  }

  /** An elementary value takes one word, or is a padded byte string. */
  lemma ElementLayout(t: Ty, v: Val)
    requires Supported(t) && HasType(t, v) && !t.SliceT? && !t.ArrayT? && !t.TupleT?
    ensures if IsDynamic(t) then IsPadded(if t.StringT? then v.text else v.raw, PackElement(t, v)) else |PackElement(t, v)| == 32
  {
    if IsDynamic(t) {
      PackBytesIs(if t.StringT? then v.text else v.raw);
    }
  }

  /** The encoding of `v` at type `t`. */
  function Enc(t: Ty, v: Val): seq<Byte>
    requires Supported(t) && HasType(t, v)
    decreases v, 0
  {
    match t
    case SliceT(elem) => PackNum(|v.vals|) + EncFrame(Rep(elem, |v.vals|), v.vals)
    case ArrayT(elem, size) => EncFrame(Rep(elem, size), v.vals)
    case TupleT(elems) => EncFrame(elems, v.vals)
    case _ => PackElement(t, v)
  }

  function Parts(ts: seq<Ty>, vs: seq<Val>): (ps: seq<Part>)
    requires AllSupported(ts) && HaveTypes(ts, vs)
    ensures |ps| == |ts|
    decreases vs, 0
  {
    seq(|vs|, i requires 0 <= i < |vs| => Part(IsDynamic(ts[i]), Enc(ts[i], vs[i])))
  }

  function EncFrame(ts: seq<Ty>, vs: seq<Val>): seq<Byte>
    requires AllSupported(ts) && HaveTypes(ts, vs)
    decreases vs, 1
  {
    Frame(Parts(ts, vs), HeadSize(ts))
  }

  /** A static value takes exactly the room `getTypeSize` reserves for it. */
  lemma {:induction false} EncSize(t: Ty, v: Val)
    requires Supported(t) && HasType(t, v)
    ensures !IsDynamic(t) ==> |Enc(t, v)| == TypeSize(t)
    decreases v, 0
  {
    match t
    case ArrayT(elem, size) =>
      if !IsDynamic(elem) {
        StaticArraySize(elem, size);
        StaticFrameSize(Rep(elem, size), v.vals);
      }
    case TupleT(elems) =>
      if !IsDynamic(t) {
        StaticFrameSize(elems, v.vals);
      }
    case _ =>
  }

  lemma {:induction false} StaticFrameSize(ts: seq<Ty>, vs: seq<Val>)
    requires AllSupported(ts) && HaveTypes(ts, vs)
    requires forall i | 0 <= i < |ts| :: !IsDynamic(ts[i])
    ensures |EncFrame(ts, vs)| == HeadSize(ts)
    decreases vs, 2
  {
    PartsHeadLen(ts, vs);
    HeadsSize(Parts(ts, vs), HeadSize(ts));
    StaticFrame(Parts(ts, vs), 0, 0);
  }

  /** The head size computed from the types is the length of the heads of the values. */
  lemma {:induction false} PartsHeadLen(ts: seq<Ty>, vs: seq<Val>)
    requires AllSupported(ts) && HaveTypes(ts, vs)
    ensures HeadLen(Parts(ts, vs)) == HeadSize(ts)
    decreases vs, 1
  {
    if vs != [] {
      EncSize(ts[0], vs[0]);
      PartsHeadLen(ts[1..], vs[1..]);
      assert Parts(ts, vs)[1..] == Parts(ts[1..], vs[1..]);
    }
  }

  /** Whatever the type and the value, the encoding is a whole number of words. */
  lemma {:induction false} EncWhole(t: Ty, v: Val)
    requires Supported(t) && HasType(t, v)
    ensures |Enc(t, v)| % 32 == 0
    decreases v, 0
  {
    match t
    case SliceT(elem) =>
      FrameWhole(Rep(elem, |v.vals|), v.vals);
      SumWhole(32, |EncFrame(Rep(elem, |v.vals|), v.vals)|);
    case ArrayT(elem, size) => FrameWhole(Rep(elem, size), v.vals);
    case TupleT(elems) => FrameWhole(elems, v.vals);
    case _ => ElementLayout(t, v);
  }

  lemma {:induction false} FrameWhole(ts: seq<Ty>, vs: seq<Val>)
    requires AllSupported(ts) && HaveTypes(ts, vs)
    ensures |EncFrame(ts, vs)| % 32 == 0
    decreases vs, 1
  {
    forall i | 0 <= i < |vs|
      ensures |Parts(ts, vs)[i].enc| % 32 == 0
    {
      EncWhole(ts[i], vs[i]);
    }
    PartsWhole(Parts(ts, vs), HeadSize(ts));
    SumWhole(|Heads(Parts(ts, vs), HeadSize(ts))|, |Tails(Parts(ts, vs))|);
  }

  /** Every frame the encoder writes is the frame the specification prescribes. */
  lemma EncFrameMatchesSpec(ts: seq<Ty>, vs: seq<Val>)
    requires AllSupported(ts) && HaveTypes(ts, vs)
    ensures EncFrame(ts, vs) == SpecHeads(Parts(ts, vs), 0) + Tails(Parts(ts, vs))
  {
    PartsHeadLen(ts, vs);
    FrameMatchesSpec(Parts(ts, vs));
  }

  /** `Type.pack`. */
  method Pack(t: Ty, v: Val) returns (r: Result<seq<Byte>, EncodeError>)
    requires Supported(t)
    ensures r == if HasType(t, v) then Ok(Enc(t, v)) else Err(TypeMismatch)
    decreases v, 0
  {
    match t
    case SliceT(elem) =>
      if !v.List? || |v.vals| >= TWO_63 {
        return Err(TypeMismatch);
      }
      r := PackList(elem, v.vals, PackNum(|v.vals|));
    case ArrayT(elem, size) =>
      if !v.List? || |v.vals| != size {
        return Err(TypeMismatch);
      }
      r := PackList(elem, v.vals, []);
      assert HasType(t, v) ==> [] + Enc(t, v) == Enc(t, v);
    case TupleT(elems) =>
      if !v.List? || |v.vals| != |elems| {
        return Err(TypeMismatch);
      }
      r := PackTuple(elems, v.vals);
    case _ =>
      r := if HasType(t, v) then Ok(PackElement(t, v)) else Err(TypeMismatch);
  }

  /** The slice and array case of `Type.pack`: one loop with a running offset; `prefix` is the length word of a slice. */
  method PackList(elem: Ty, vs: seq<Val>, prefix: seq<Byte>) returns (r: Result<seq<Byte>, EncodeError>)
    requires Supported(elem)
    ensures r == if HaveTypes(Rep(elem, |vs|), vs) then Ok(prefix + EncFrame(Rep(elem, |vs|), vs)) else Err(TypeMismatch)
    decreases vs, 0
  {
    var ret, tail: seq<Byte> := prefix, [];
    var offsetReq := IsDynamic(elem);
    var offset: nat := if offsetReq then TypeSize(elem) * |vs| else 0;
    ghost var start, ps: seq<Part> := offset, [];
    for i := 0 to |vs|
      invariant |ps| == i && forall j | 0 <= j < i :: HasType(elem, vs[j]) && ps[j] == Part(offsetReq, Enc(elem, vs[j]))
      invariant Written(prefix, ps, start, ret, tail, offset)
    {
      var val :- Pack(elem, vs[i]);
      WrittenSnoc(prefix, ps, start, ret, tail, offset, Part(offsetReq, val));
      ps := ps + [Part(offsetReq, val)];
      if !offsetReq {
        ret := ret + val;
        continue;
      }
      ret := ret + PackNum(offset);
      offset := offset + |val|;
      tail := tail + val;
    }
    Assoc(prefix, Heads(ps, start), Tails(ps));
    HeadSizeRep(elem, |vs|);
    ListStart(elem, vs, ps, start);
    r := Ok(ret + tail);
  }

  /** The offset a list starts from is irrelevant for static elements and the head size for dynamic ones. */
  lemma ListStart(elem: Ty, vs: seq<Val>, ps: seq<Part>, start: nat)
    requires Supported(elem) && HaveTypes(Rep(elem, |vs|), vs)
    requires |ps| == |vs| && forall j | 0 <= j < |ps| :: ps[j] == Part(IsDynamic(elem), Enc(elem, vs[j]))
    requires IsDynamic(elem) ==> start == HeadSize(Rep(elem, |vs|))
    ensures Frame(ps, start) == EncFrame(Rep(elem, |vs|), vs)
  {
    assert ps == Parts(Rep(elem, |vs|), vs);
    if !IsDynamic(elem) {
      StaticFrame(ps, start, HeadSize(Rep(elem, |vs|)));
    }
  }

  /** The tuple case of `Type.pack`, and the loops of `Arguments.Pack`. */
  method PackTuple(ts: seq<Ty>, vs: seq<Val>) returns (r: Result<seq<Byte>, EncodeError>)
    requires |ts| == |vs| && AllSupported(ts)
    ensures r == if HaveTypes(ts, vs) then Ok(EncFrame(ts, vs)) else Err(TypeMismatch)
    decreases vs, 0
  {
    var offset: nat := PrefixSize(ts);
    var ret, tail: seq<Byte> := [], [];
    ghost var ps: seq<Part> := [];
    for i := 0 to |ts|
      invariant |ps| == i && forall j | 0 <= j < i :: HasType(ts[j], vs[j]) && ps[j] == Part(IsDynamic(ts[j]), Enc(ts[j], vs[j]))
      invariant Written([], ps, HeadSize(ts), ret, tail, offset)
    {
      var val :- Pack(ts[i], vs[i]);
      WrittenSnoc([], ps, HeadSize(ts), ret, tail, offset, Part(IsDynamic(ts[i]), val));
      ps := ps + [Part(IsDynamic(ts[i]), val)];
      if IsDynamic(ts[i]) {
        ret := ret + PackNum(offset);
        tail := tail + val;
        offset := offset + |val|;
      } else {
        ret := ret + val;
      }
    }
    assert ps == Parts(ts, vs);
    assert ret == Heads(ps, HeadSize(ts));
    r := Ok(ret + tail);
  }

  /** The loop both callers run to find where the tails start. */
  method PrefixSize(ts: seq<Ty>) returns (offset: nat)
    ensures offset == HeadSize(ts)
  {
    offset := 0;
    assert ts[0..] == ts;
    for i := 0 to |ts|
      invariant offset + HeadSize(ts[i..]) == HeadSize(ts)
    {
      offset := offset + TypeSize(ts[i]);
      assert ts[i..][1..] == ts[i + 1..];
    }
  }

  /** `Arguments.Pack`. */
  method PackArguments(ts: seq<Ty>, vs: seq<Val>) returns (r: Result<seq<Byte>, EncodeError>)
    requires AllSupported(ts)
    ensures |ts| != |vs| ==> r == Err(CountMismatch)
    ensures |ts| == |vs| ==> r == if HaveTypes(ts, vs) then Ok(EncFrame(ts, vs)) else Err(TypeMismatch)
    ensures r.Ok? ==> |r.value| % 32 == 0
  {
    if |ts| != |vs| {
      return Err(CountMismatch);
    }
    r := PackTuple(ts, vs);
    if r.Ok? {
      FrameWhole(ts, vs);
    }
  }
}
