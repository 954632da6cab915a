/** Decoding what was encoded: exactly when `UnpackValues(Pack(vs))` is `vs`. */
module AbiRoundTrip {
  import opened Wrappers
  import opened Bytes
  import opened AbiTypes
  import opened AbiLayout
  import opened AbiEncode
  import opened AbiDecode

  /** The integer that survives a trip through one word. */
  function NormNum(signed: bool, bits: nat, n: int): int {
    var m := Modulus(bits);
    if signed && n % m >= m / 2 then n % m - m else n % m
  }

  /** What a value decodes to: integers wrap to their word, everything else is unchanged. */
  function Norm(t: Ty, v: Val): Val
    requires HasType(t, v)
    decreases v, 0
  {
    match t
    case UintT(bits) => Num(NormNum(false, bits, v.n))
    case IntT(bits) => Num(NormNum(true, bits, v.n))
    case SliceT(elem) => List(Norms(Rep(elem, |v.vals|), v.vals))
    case ArrayT(elem, size) => List(Norms(Rep(elem, size), v.vals))
    case TupleT(elems) => List(Norms(elems, v.vals))
    case _ => v
  }

  function Norms(ts: seq<Ty>, vs: seq<Val>): (ns: seq<Val>)
    requires HaveTypes(ts, vs)
    ensures |ns| == |vs|
    decreases vs, 0
  {
    seq(|vs|, i requires 0 <= i < |vs| => Norm(ts[i], vs[i]))
  }

  /** Every integer fits the word its type is read back from. */
  predicate Representable(t: Ty, v: Val)
    requires HasType(t, v)
    decreases v, 0
  {
    match t
    case UintT(bits) => InWord(false, bits, v.n)
    case IntT(bits) => InWord(true, bits, v.n)
    case SliceT(elem) => AllRepresentable(Rep(elem, |v.vals|), v.vals)
    case ArrayT(elem, size) => AllRepresentable(Rep(elem, size), v.vals)
    case TupleT(elems) => AllRepresentable(elems, v.vals)
    case _ => true
  }

  predicate AllRepresentable(ts: seq<Ty>, vs: seq<Val>)
    requires HaveTypes(ts, vs)
    decreases vs, 0
  {
    forall i | 0 <= i < |vs| :: Representable(ts[i], vs[i])
  }

  /**
   The decoder insists on 32 readable bytes at every head, also at components that occupy none, and on 32
   bytes for every element of a list. `head` and `tail` are the bytes from the component's head, and from
   its tail, to the end of the input: only zero-size components constrain them.
   */
  predicate Slack(t: Ty, v: Val, head: int, tail: int)
    requires Supported(t) && HasType(t, v)
    decreases v, 0
  {
    && (TypeSize(t) == 0 ==> head >= 32)
    && match t
       case SliceT(elem) => ListSlack(elem, v.vals, tail - 32)
       case ArrayT(elem, size) => ListSlack(elem, v.vals, if IsDynamic(elem) then tail else head)
       case TupleT(elems) =>
         var room := if IsDynamic(t) then tail else head;
         FieldsSlack(elems, v.vals, room, room - HeadSize(elems))
       case _ => true
  }

  predicate ListSlack(elem: Ty, vs: seq<Val>, room: int)
    requires Supported(elem) && HaveTypes(Rep(elem, |vs|), vs)
    decreases vs, 1
  {
    && (TypeSize(elem) == 0 ==> 32 * |vs| <= room)
    && FieldsSlack(Rep(elem, |vs|), vs, room, room - HeadSize(Rep(elem, |vs|)))
  }

  predicate FieldsSlack(ts: seq<Ty>, vs: seq<Val>, head: int, tail: int)
    requires AllSupported(ts) && HaveTypes(ts, vs)
    decreases vs, 0
  {
    vs == [] || (
      && Slack(ts[0], vs[0], head, tail)
      && FieldsSlack(ts[1..], vs[1..], head - TypeSize(ts[0]), if IsDynamic(ts[0]) then tail - |Enc(ts[0], vs[0])| else tail)
    )
  }

  /** The low `k` bytes of a word hold the number written modulo 256^k. */
  lemma LowWord(n: int, k: nat)
    requires k <= 32
    ensures FromBytes(PackNum(n)[32 - k..]) == n % Pow256(k)
  {
    var u: nat := n % TWO_256;
    var w := ToBytes(u, 32);
    FromToBytes(u, 32);
    FromBytesLow(w, k);
    PowSplit(k, 32 - k);
    assert Pow256(32) == TWO_256 by { WordModulus(); }
    ModMod(n, Pow256(k), Pow256(32 - k));
    ModMod(u, Pow256(k), Pow256(32 - k));
  }

  /** Offsets and lengths below 2^63 read back exactly, also from the low eight bytes. */
  lemma ReadPackNum(n: nat)
    requires n < TWO_64
    ensures FromBytes(PackNum(n)) == n && FromBytes(PackNum(n)[24..]) == n
  {
    LowWord(n, 32);
    LowWord(n, 8);
    assert PackNum(n)[0..] == PackNum(n);
    WordModulus();
  }

  lemma ReadWrittenInteger(signed: bool, bits: nat, n: int)
    ensures ReadInteger(signed, bits, PackNum(n)) == NormNum(signed, bits, n)
  {
    var k := if Native(bits) then bits / 8 else 32;
    LowWord(n, k);
    assert PackNum(n)[0..] == PackNum(n);
    assert Pow256(k) == Modulus(bits) by { WordModulus(); }
  }

  lemma {:induction false} ZeroBytes(k: nat)
    ensures forall i | 0 <= i < k :: ToBytes(0, k)[i] == 0
  {
    if k > 0 {
      ZeroBytes(k - 1);
    }
  }

  lemma ReadWrittenBool(b: bool)
    ensures ReadBool(PackNum(if b then 1 else 0)) == Ok(Flag(b))
  {
    var n: nat := if b then 1 else 0;
    var w := PackNum(n);
    ZeroBytes(31);
    assert w == ToBytes(0, 31) + [n];
    assert w[31] == n;
    assert forall i | 0 <= i < 31 :: w[i] == ToBytes(0, 31)[i];
  }

  /** A length-prefixed component is found behind its offset. */
  lemma FindPrefix(out: seq<Byte>, pos: nat, off: nat, n: nat)
    requires |out| < TWO_63 && n < TWO_64
    requires At(out, pos, PackNum(off)) && At(out, off, PackNum(n))
    ensures off + 32 + n <= |out| ==> LengthPrefix(pos, out) == Ok((off + 32, n))
    ensures off + 32 + n > |out| ==> LengthPrefix(pos, out).Err?
  {
    ReadPackNum(off);
    ReadPackNum(n);
  }

  lemma WordRoundTrip(t: Ty, v: Val, word: seq<Byte>)
    requires Supported(t) && HasType(t, v) && !IsDynamic(t) && !t.ArrayT? && !t.TupleT? && word == Enc(t, v)
    ensures |word| == 32 && ToGoLeaf(0, t, word) == Ok(Norm(t, v))
  {
    assert word[0..32] == word;
    match t
    case UintT(bits) => ReadWrittenInteger(false, bits, v.n);
    case IntT(bits) => ReadWrittenInteger(true, bits, v.n);
    case BoolT => ReadWrittenBool(v.b);
    case AddressT => assert word[12..] == v.raw;
    case FixedBytesT(len) => assert word[..len] == v.raw;
    case FunctionT =>
      ZeroTail(word[24..32]);
      assert word[..24] == v.raw;
  }

  lemma LeafRoundTrip(t: Ty, v: Val, out: seq<Byte>, pos: nat, off: nat)
    requires Supported(t) && HasType(t, v) && !t.SliceT? && !t.ArrayT? && !t.TupleT?
    requires |out| < TWO_63 && Placed(IsDynamic(t), Enc(t, v), out, pos, off)
    ensures ToGoLeaf(pos, t, out) == Ok(Norm(t, v))
  {
    if t.StringT? {
      BytesRoundTrip(v.text, out, pos, off);
    } else if t.BytesT? {
      BytesRoundTrip(v.raw, out, pos, off);
    } else {
      var word := out[pos..pos + 32];
      WordRoundTrip(t, v, word);
      assert word[0..32] == word;
    }
  }

  lemma {:induction false} ZeroTail(s: seq<Byte>)
    requires forall i | 0 <= i < |s| :: s[i] == 0
    ensures FromBytes(s) == 0
  {
    if s != [] {
      ZeroTail(s[..|s| - 1]);
    }
  }

  lemma BytesRoundTrip(s: seq<Byte>, out: seq<Byte>, pos: nat, off: nat)
    requires |out| < TWO_63 && Placed(true, PackBytes(s), out, pos, off)
    ensures LengthPrefix(pos, out) == Ok((off + 32, |s|)) && out[off + 32..off + 32 + |s|] == s
  {
    var e := PackBytes(s);
    assert e == PackNum(|s|) + e[32..];
    AtSplit(out, off, PackNum(|s|), e[32..]);
    FindPrefix(out, pos, off, |s|);
    assert e[32..] == s + e[32 + |s|..];
    AtSplit(out, off + 32, s, e[32 + |s|..]);
  }

  /** Fields read from `pos`, with tails from `off`: normal forms exactly when the zero-size ones have slack. */
  ghost predicate FieldsAgree(ts: seq<Ty>, vs: seq<Val>, out: seq<Byte>, pos: nat, off: nat)
    requires AllSupported(ts) && HaveTypes(ts, vs)
  {
    var r := Fields(ts, out, pos);
    && (r.Ok? <==> FieldsSlack(ts, vs, |out| - pos, |out| - off))
    && (r.Ok? ==> r.value == Norms(ts, vs))
  }

  /** Reading a frame: its fields decode to their normal forms exactly when the zero-size ones have slack. */
  lemma {:induction false} FrameRoundTrip(ts: seq<Ty>, vs: seq<Val>, out: seq<Byte>, begin: nat)
    requires AllSupported(ts) && HaveTypes(ts, vs)
    requires |out| < TWO_63 && At(out, begin, EncFrame(ts, vs))
    ensures var room := |out| - begin;
            var r := Fields(ts, out[begin..], 0);
            && (r.Ok? <==> FieldsSlack(ts, vs, room, room - HeadSize(ts)))
            && (r.Ok? ==> r.value == Norms(ts, vs))
    decreases vs, 2
  {
    var ps, start := Parts(ts, vs), HeadSize(ts);
    PartsHeadLen(ts, vs);
    HeadsSize(ps, start);
    AtSplit(out, begin, Heads(ps, start), Tails(ps));
    AtDrop(out, begin, 0, Heads(ps, start));
    AtDrop(out, begin, start, Tails(ps));
    FieldsRoundTrip(ts, vs, out[begin..], 0, start);
  }

  lemma {:induction false} FieldsRoundTrip(ts: seq<Ty>, vs: seq<Val>, out: seq<Byte>, pos: nat, off: nat)
    requires AllSupported(ts) && HaveTypes(ts, vs)
    requires |out| < TWO_63 && At(out, pos, Heads(Parts(ts, vs), off)) && At(out, off, Tails(Parts(ts, vs)))
    ensures FieldsAgree(ts, vs, out, pos, off)
    decreases vs, 1
  {
    if vs != [] {
      var off' := NextOffset(ts, vs, out, pos, off);
      ToGoRoundTrip(ts[0], vs[0], out, pos, off);
      FieldsRoundTrip(ts[1..], vs[1..], out, pos + TypeSize(ts[0]), off');
      FieldsAgreeStep(ts, vs, out, pos, off, off');
    }
  }

  lemma FieldsAgreeStep(ts: seq<Ty>, vs: seq<Val>, out: seq<Byte>, pos: nat, off: nat, off': nat)
    requires AllSupported(ts) && HaveTypes(ts, vs) && vs != []
    requires off' == if IsDynamic(ts[0]) then off + |Enc(ts[0], vs[0])| else off
    requires ToGo(pos, ts[0], out).Ok? <==> Slack(ts[0], vs[0], |out| - pos, |out| - off)
    requires ToGo(pos, ts[0], out).Ok? ==> ToGo(pos, ts[0], out).value == Norm(ts[0], vs[0])
    requires FieldsAgree(ts[1..], vs[1..], out, pos + TypeSize(ts[0]), off')
    ensures FieldsAgree(ts, vs, out, pos, off)
  {
    FieldsSlackStep(ts, vs, |out| - pos, |out| - off, |out| - (pos + TypeSize(ts[0])), |out| - off');
    FieldsStep(ts, out, pos);
    NormsStep(ts, vs);
  }

  lemma NormsStep(ts: seq<Ty>, vs: seq<Val>)
    requires HaveTypes(ts, vs) && vs != []
    ensures Norms(ts, vs) == [Norm(ts[0], vs[0])] + Norms(ts[1..], vs[1..])
  {
  }

  /** The first component is where its head says, and the remaining ones follow. */
  lemma NextOffset(ts: seq<Ty>, vs: seq<Val>, out: seq<Byte>, pos: nat, off: nat) returns (off': nat)
    requires AllSupported(ts) && HaveTypes(ts, vs) && vs != []
    requires At(out, pos, Heads(Parts(ts, vs), off)) && At(out, off, Tails(Parts(ts, vs)))
    ensures off' == if IsDynamic(ts[0]) then off + |Enc(ts[0], vs[0])| else off
    ensures Placed(IsDynamic(ts[0]), Enc(ts[0], vs[0]), out, pos, off)
    ensures At(out, pos + TypeSize(ts[0]), Heads(Parts(ts[1..], vs[1..]), off'))
    ensures At(out, off', Tails(Parts(ts[1..], vs[1..])))
  {
    var ps := Parts(ts, vs);
    Unplace(ps, out, pos, off);
    assert ps[0] == Part(IsDynamic(ts[0]), Enc(ts[0], vs[0]));
    assert ps[1..] == Parts(ts[1..], vs[1..]);
    EncSize(ts[0], vs[0]);
    off' := if ps[0].dyn then off + |ps[0].enc| else off;
  }

  lemma FieldsSlackStep(ts: seq<Ty>, vs: seq<Val>, head: int, tail: int, head': int, tail': int)
    requires AllSupported(ts) && HaveTypes(ts, vs) && vs != []
    requires head' == head - TypeSize(ts[0])
    requires tail' == if IsDynamic(ts[0]) then tail - |Enc(ts[0], vs[0])| else tail
    ensures FieldsSlack(ts, vs, head, tail) <==> Slack(ts[0], vs[0], head, tail) && FieldsSlack(ts[1..], vs[1..], head', tail')
  {
  }

  lemma FieldsStep(ts: seq<Ty>, out: seq<Byte>, pos: nat)
    requires AllSupported(ts) && ts != []
    ensures var v, rest := ToGo(pos, ts[0], out), Fields(ts[1..], out, pos + TypeSize(ts[0]));
            && (Fields(ts, out, pos).Ok? <==> v.Ok? && rest.Ok?)
            && (v.Ok? && rest.Ok? ==> Fields(ts, out, pos).value == [v.value] + rest.value)
  {
  }

  lemma {:induction false} ToGoRoundTrip(t: Ty, v: Val, out: seq<Byte>, pos: nat, off: nat)
    requires Supported(t) && HasType(t, v)
    requires |out| < TWO_63 && Placed(IsDynamic(t), Enc(t, v), out, pos, off)
    ensures var r := ToGo(pos, t, out);
            && (r.Ok? <==> Slack(t, v, |out| - pos, |out| - off))
            && (r.Ok? ==> r.value == Norm(t, v))
    decreases v, 1
  {
    if pos + 32 <= |out| {
      match t
      case SliceT(elem) => SliceRoundTrip(t, v, out, pos, off);
      case ArrayT(elem, size) => ArrayRoundTrip(t, v, out, pos, off);
      case TupleT(elems) => TupleRoundTrip(t, v, out, pos, off);
      case _ => LeafRoundTrip(t, v, out, pos, off);
    } else {
      EncSize(t, v);
      TypeSizeWhole(t);
      assert TypeSize(t) == 0;
    }
  }

  lemma {:induction false} SliceRoundTrip(t: Ty, v: Val, out: seq<Byte>, pos: nat, off: nat)
    requires t.SliceT? && Supported(t) && HasType(t, v)
    requires |out| < TWO_63 && Placed(true, Enc(t, v), out, pos, off)
    ensures var r := ToGo(pos, t, out);
            && (r.Ok? <==> Slack(t, v, |out| - pos, |out| - off))
            && (r.Ok? ==> r.value == Norm(t, v))
    decreases v, 0
  {
    var elem, n := t.elem, |v.vals|;
    AtSplit(out, off, PackNum(n), EncFrame(Rep(elem, n), v.vals));
    FindPrefix(out, pos, off, n);
    ListRoundTrip(elem, v.vals, out, off + 32);
  }

  lemma {:induction false} ArrayRoundTrip(t: Ty, v: Val, out: seq<Byte>, pos: nat, off: nat)
    requires t.ArrayT? && Supported(t) && HasType(t, v)
    requires |out| < TWO_63 && pos + 32 <= |out| && Placed(IsDynamic(t), Enc(t, v), out, pos, off)
    ensures var r := ToGo(pos, t, out);
            && (r.Ok? <==> Slack(t, v, |out| - pos, |out| - off))
            && (r.Ok? ==> r.value == Norm(t, v))
    decreases v, 0
  {
    if IsDynamic(t.elem) {
      ReadPackNum(off);
      assert out[pos + 24..pos + 32] == out[pos..pos + 32][24..];
      assert ArrayPointer(pos, out) == Ok(off);
    }
    ListRoundTrip(t.elem, v.vals, out, if IsDynamic(t.elem) then off else pos);
  }

  lemma {:induction false} TupleRoundTrip(t: Ty, v: Val, out: seq<Byte>, pos: nat, off: nat)
    requires t.TupleT? && Supported(t) && HasType(t, v)
    requires |out| < TWO_63 && pos + 32 <= |out| && Placed(IsDynamic(t), Enc(t, v), out, pos, off)
    ensures var r := ToGo(pos, t, out);
            && (r.Ok? <==> Slack(t, v, |out| - pos, |out| - off))
            && (r.Ok? ==> r.value == Norm(t, v))
    decreases v, 0
  {
    if IsDynamic(t) {
      ReadPackNum(off);
      assert TuplePointer(pos, out) == Ok(off);
    }
    FrameRoundTrip(t.elems, v.vals, out, if IsDynamic(t) then off else pos);
  }

  lemma {:induction false} ListRoundTrip(elem: Ty, vs: seq<Val>, out: seq<Byte>, begin: nat)
    requires Supported(elem) && HaveTypes(Rep(elem, |vs|), vs)
    requires |out| < TWO_63 && At(out, begin, EncFrame(Rep(elem, |vs|), vs))
    ensures var r := Each(elem, out[begin..], |vs|);
            && (r.Ok? <==> ListSlack(elem, vs, |out| - begin))
            && (r.Ok? ==> r.value == Norms(Rep(elem, |vs|), vs))
    decreases vs, 3
  {
    FrameRoundTrip(Rep(elem, |vs|), vs, out, begin);
    ElementsAreFields(elem, out[begin..], 0, |vs|);
    ListFits(elem, vs);
    EachIs(elem, vs, out[begin..]);
  }

  /** Decoding a list is decoding its elements as fields, once there are 32 bytes for each of them. */
  lemma EachIs(elem: Ty, vs: seq<Val>, out: seq<Byte>)
    requires Supported(elem) && HaveTypes(Rep(elem, |vs|), vs) && (TypeSize(elem) != 0 ==> 32 * |vs| <= |out|)
    requires Elements(elem, out, 0, |vs|) == Fields(Rep(elem, |vs|), out, 0)
    ensures var r, ok := Each(elem, out, |vs|), TypeSize(elem) == 0 ==> 32 * |vs| <= |out|;
            (r.Ok? ==> ok) && (ok ==> r == Fields(Rep(elem, |vs|), out, 0))
  {
  }

  /** Elements of non-zero size take at least a word each. */
  lemma ListFits(elem: Ty, vs: seq<Val>)
    requires Supported(elem) && HaveTypes(Rep(elem, |vs|), vs)
    ensures TypeSize(elem) != 0 ==> 32 * |vs| <= |EncFrame(Rep(elem, |vs|), vs)|
  {
    var ts := Rep(elem, |vs|);
    PartsHeadLen(ts, vs);
    HeadsSize(Parts(ts, vs), HeadSize(ts));
    HeadSizeRep(elem, |vs|);
    TypeSizeWhole(elem);
    if TypeSize(elem) != 0 {
      MulMono(TypeSize(elem), |vs|);
    }
  }

  lemma MulMono(a: nat, n: nat)
    requires a >= 32
    ensures a * n >= 32 * n
  {
    assert a * n == 32 * n + (a - 32) * n;
  }

  lemma NormNumIdentity(signed: bool, bits: nat, n: int)
    ensures NormNum(signed, bits, n) == n <==> InWord(signed, bits, n)
  {
    var m := Modulus(bits);
    if 0 <= n < m {
      DivModUnique(n, m, 0, n);
    } else if signed && -(m / 2) <= n < 0 {
      DivModUnique(n, m, -1, n + m);
    }
  }

  lemma {:induction false} NormIdentity(t: Ty, v: Val)
    requires HasType(t, v)
    ensures Norm(t, v) == v <==> Representable(t, v)
    decreases v, 0
  {
    match t
    case UintT(bits) => NormNumIdentity(false, bits, v.n);
    case IntT(bits) => NormNumIdentity(true, bits, v.n);
    case SliceT(elem) => NormsIdentity(Rep(elem, |v.vals|), v.vals);
    case ArrayT(elem, size) => NormsIdentity(Rep(elem, size), v.vals);
    case TupleT(elems) => NormsIdentity(elems, v.vals);
    case _ =>
  }

  lemma {:induction false} NormsIdentity(ts: seq<Ty>, vs: seq<Val>)
    requires HaveTypes(ts, vs)
    ensures Norms(ts, vs) == vs <==> AllRepresentable(ts, vs)
    decreases vs, 0
  {
    forall i | 0 <= i < |vs|
      ensures Norms(ts, vs)[i] == vs[i] <==> Representable(ts[i], vs[i])
    {
      NormIdentity(ts[i], vs[i]);
    }
    assert Norms(ts, vs) == vs <==> forall i | 0 <= i < |vs| :: Norms(ts, vs)[i] == vs[i];
  }

  /** Decoding a packed argument list yields the normal forms, or an error for want of slack. */
  lemma UnpackPacked(ts: seq<Ty>, vs: seq<Val>)
    requires AllSupported(ts) && HaveTypes(ts, vs) && |EncFrame(ts, vs)| < TWO_63
    ensures var data := EncFrame(ts, vs);
            var r := Fields(ts, data, 0);
            && (r.Ok? <==> FieldsSlack(ts, vs, |data|, |data| - HeadSize(ts)))
            && (r.Ok? ==> r.value == Norms(ts, vs))
  {
    var data := EncFrame(ts, vs);
    assert data[0..] == data && data[0..|data|] == data;
    FrameRoundTrip(ts, vs, data, 0);
  }

  /** `UnpackValues(Pack(vs)) == vs` exactly when every integer fits its word and the zero-size components have slack. */
  lemma RoundTrip(ts: seq<Ty>, vs: seq<Val>)
    requires AllSupported(ts) && HaveTypes(ts, vs) && |EncFrame(ts, vs)| < TWO_63
    ensures var data := EncFrame(ts, vs);
            Fields(ts, data, 0) == Ok(vs) <==>
            AllRepresentable(ts, vs) && FieldsSlack(ts, vs, |data|, |data| - HeadSize(ts))
  {
    UnpackPacked(ts, vs);
    NormsIdentity(ts, vs);
  }

  /** No component anywhere in the type occupies zero bytes. */
  predicate NoEmpty(t: Ty) {
    TypeSize(t) > 0 &&
    match t
    case SliceT(elem) => NoEmpty(elem)
    case ArrayT(elem, _) => NoEmpty(elem)
    case TupleT(elems) => forall i | 0 <= i < |elems| :: NoEmpty(elems[i])
    case _ => true
  }

  lemma {:induction false} NoEmptyHasSlack(t: Ty, v: Val, head: int, tail: int)
    requires Supported(t) && HasType(t, v) && NoEmpty(t)
    ensures Slack(t, v, head, tail)
    decreases v, 0
  {
    match t
    case SliceT(elem) => FieldsHaveSlack(Rep(elem, |v.vals|), v.vals, tail - 32, tail - 32 - HeadSize(Rep(elem, |v.vals|)));
    case ArrayT(elem, size) =>
      var room := if IsDynamic(elem) then tail else head;
      FieldsHaveSlack(Rep(elem, size), v.vals, room, room - HeadSize(Rep(elem, size)));
    case TupleT(elems) =>
      var room := if IsDynamic(t) then tail else head;
      FieldsHaveSlack(elems, v.vals, room, room - HeadSize(elems));
    case _ =>
  }

  lemma {:induction false} FieldsHaveSlack(ts: seq<Ty>, vs: seq<Val>, head: int, tail: int)
    requires AllSupported(ts) && HaveTypes(ts, vs) && forall i | 0 <= i < |ts| :: NoEmpty(ts[i])
    ensures FieldsSlack(ts, vs, head, tail)
    decreases vs, 1
  {
    if vs != [] {
      NoEmptyHasSlack(ts[0], vs[0], head, tail);
      FieldsHaveSlack(ts[1..], vs[1..], head - TypeSize(ts[0]), if IsDynamic(ts[0]) then tail - |Enc(ts[0], vs[0])| else tail);
    }
  }

  /** The round trip for types without zero-size components: every representable value, any nesting. */
  lemma RoundTripNoEmpty(ts: seq<Ty>, vs: seq<Val>)
    requires AllSupported(ts) && HaveTypes(ts, vs) && |EncFrame(ts, vs)| < TWO_63
    requires AllRepresentable(ts, vs) && forall i | 0 <= i < |ts| :: NoEmpty(ts[i])
    ensures Fields(ts, EncFrame(ts, vs), 0) == Ok(vs)
  {
    var len := |EncFrame(ts, vs)|;
    FieldsHaveSlack(ts, vs, len, len - HeadSize(ts));
    RoundTrip(ts, vs);
  }

  /** `uint256[0]` as the last argument does not come back. */
  lemma EmptyArrayLast()
    ensures var ts, vs := [ArrayT(UintT(256), 0)], [List([])];
            HaveTypes(ts, vs) && Fields(ts, EncFrame(ts, vs), 0).Err?
  {
    var ts, vs := [ArrayT(UintT(256), 0)], [List([])];
    assert HasType(ts[0], vs[0]);
    StaticFrameSize(ts, vs);
    assert ts[1..] == [];
    assert |EncFrame(ts, vs)| == 0;
  }

  /** In front of another argument it does. */
  lemma EmptyArrayFirst(n: nat)
    requires n < TWO_256
    ensures var ts, vs := [ArrayT(UintT(256), 0), UintT(256)], [List([]), Num(n)];
            HaveTypes(ts, vs) && Fields(ts, EncFrame(ts, vs), 0) == Ok(vs)
  {
    var ts, vs := [ArrayT(UintT(256), 0), UintT(256)], [List([]), Num(n)];
    assert HasType(ts[0], vs[0]) && HasType(ts[1], vs[1]);
    StaticFrameSize(ts, vs);
    assert HeadSize(ts) == 32 by { assert ts[1..][1..] == []; }
    FieldsHaveSlack(ts[1..], vs[1..], 32, 0);
    EmptyListSlack(32);
    FieldsSlackStep(ts, vs, 32, 0, 32, 0);
    assert Representable(ts[0], vs[0]) && Representable(ts[1], vs[1]);
    RoundTrip(ts, vs);
  }

  lemma EmptyListSlack(head: int)
    ensures var t := ArrayT(UintT(256), 0);
            HasType(t, List([])) && (Slack(t, List([]), head, 0) <==> head >= 32)
  {
    assert FieldsSlack([], [], head, head);
  }

  /** A `uint256` argument below zero is packed modulo 2^256 and comes back as another number. */
  lemma NegativeUintWraps()
    ensures HaveTypes([UintT(256)], [Num(-1)])
    ensures Fields([UintT(256)], EncFrame([UintT(256)], [Num(-1)]), 0) == Ok([Num(TWO_256 - 1)])
  {
    var ts, vs := [UintT(256)], [Num(-1)];
    StaticFrameSize(ts, vs);
    assert HeadSize(ts) == 32 by { assert ts[1..] == []; }
    FieldsHaveSlack(ts, vs, 32, 0);
    UnpackPacked(ts, vs);
    DivModUnique(-1, TWO_256, -1, TWO_256 - 1);
    assert Norms(ts, vs) == [Num(TWO_256 - 1)];
  }
}
