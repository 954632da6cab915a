/** What the decoder accepts, from arbitrary bytes: the words and offsets that spell a value, without an order of reading. */
module AbiExact {
  import opened Wrappers
  import opened Bytes
  import opened AbiTypes
  import opened AbiDecode

  /** The number in the word at `pos`. */
  function WordAt(out: seq<Byte>, pos: nat): nat
    requires pos + 32 <= |out|
  {
    FromBytes(out[pos..pos + 32])
  }

  /** The integer of this width that agrees with the word modulo the width. */
  predicate Represents(signed: bool, bits: nat, n: int, word: nat) {
    InWord(signed, bits, n) && n % Modulus(bits) == word % Modulus(bits)
  }

  /** A length word at `o`, and as many bytes, or words, announced as there is room for bytes. */
  predicate Announces(out: seq<Byte>, o: nat, n: nat) {
    o + 32 + n <= |out| && o + 32 + n < TWO_63 && WordAt(out, o) == n
  }

  predicate Spells(out: seq<Byte>, o: nat, s: seq<Byte>) {
    Announces(out, o, |s|) && out[o + 32..o + 32 + |s|] == s
  }

  /** The bytes spell the value `v` of type `t`, its head at `index`. */
  ghost predicate Reads(index: nat, t: Ty, out: seq<Byte>, v: Val)
    decreases t, 0
  {
    index + 32 <= |out| &&
    var word := WordAt(out, index);
    match t
    case UintT(bits) => v.Num? && Represents(false, bits, v.n, word)
    case IntT(bits) => v.Num? && Represents(true, bits, v.n, word)
    case BoolT => v.Flag? && word == if v.b then 1 else 0
    case AddressT => v.Raw? && v.raw == out[index + 12..index + 32]
    case FixedBytesT(len) => len <= 32 && v.Raw? && v.raw == out[index..index + len]
    case FunctionT => v.Raw? && v.raw == out[index..index + 24] && word % TWO_64 == 0
    case StringT => v.Text? && Spells(out, word, v.text)
    case BytesT => v.Raw? && Spells(out, word, v.raw)
    case SliceT(elem) => v.List? && Announces(out, word, |v.vals|) && ReadsEach(elem, out[word + 32..], v.vals)
    case ArrayT(elem, size) =>
      var o := if IsDynamic(elem) then word % TWO_64 else index;
      v.List? && |v.vals| == size && o <= |out| && ReadsEach(elem, out[o..], v.vals)
    case TupleT(elems) =>
      var o := if IsDynamic(t) then word else index;
      && v.List? && |v.vals| == |elems| && o <= |out| && (IsDynamic(t) ==> o < TWO_63)
      && forall i | 0 <= i < |elems| :: Reads(HeadSize(elems[..i]), elems[i], out[o..], v.vals[i])
  }

  /** Elements side by side, in a frame with room for a word each. */
  ghost predicate ReadsEach(elem: Ty, out: seq<Byte>, vs: seq<Val>)
    decreases elem, 1
  {
    32 * |vs| <= |out| && forall i | 0 <= i < |vs| :: Reads(TypeSize(elem) * i, elem, out, vs[i])
  }

  lemma {:induction false} HeadSizeSplit(ts: seq<Ty>, i: nat)
    requires 0 < i <= |ts|
    ensures HeadSize(ts[..i]) == TypeSize(ts[0]) + HeadSize(ts[1..][..i - 1])
  {
    assert ts[..i][1..] == ts[1..][..i - 1];
  }

  /** The field decodes where the heads before it end. */
  ghost predicate FieldAt(ts: seq<Ty>, out: seq<Byte>, pos: nat, vs: seq<Val>, i: nat)
    requires AllSupported(ts) && i < |ts| == |vs|
  {
    ToGo(pos + HeadSize(ts[..i]), ts[i], out) == Ok(vs[i])
  }

  ghost predicate EachField(ts: seq<Ty>, out: seq<Byte>, pos: nat, vs: seq<Val>)
    requires AllSupported(ts)
  {
    |vs| == |ts| && forall i | 0 <= i < |ts| :: FieldAt(ts, out, pos, vs, i)
  }

  lemma {:induction false} FieldAtNext(ts: seq<Ty>, out: seq<Byte>, pos: nat, vs: seq<Val>, i: nat)
    requires AllSupported(ts) && 0 < i < |ts| == |vs|
    ensures FieldAt(ts, out, pos, vs, i) <==> FieldAt(ts[1..], out, pos + TypeSize(ts[0]), vs[1..], i - 1)
  {
    HeadSizeSplit(ts, i);
  }

  lemma {:induction false} EachFieldCons(ts: seq<Ty>, out: seq<Byte>, pos: nat, vs: seq<Val>)
    requires AllSupported(ts) && ts != [] && |vs| == |ts|
    ensures EachField(ts, out, pos, vs) <==> FieldAt(ts, out, pos, vs, 0) && EachField(ts[1..], out, pos + TypeSize(ts[0]), vs[1..])
    ensures FieldAt(ts, out, pos, vs, 0) <==> ToGo(pos, ts[0], out) == Ok(vs[0])
  {
    var rest, next, tail := ts[1..], pos + TypeSize(ts[0]), vs[1..];
    assert ts[..0] == [] && HeadSize(ts[..0]) == 0;
    if EachField(rest, out, next, tail) {
      forall i | 0 < i < |ts|
        ensures FieldAt(ts, out, pos, vs, i)
      {
        FieldAtNext(ts, out, pos, vs, i);
      }
    }
    if EachField(ts, out, pos, vs) {
      forall i | 0 <= i < |rest|
        ensures FieldAt(rest, out, next, tail, i)
      {
        FieldAtNext(ts, out, pos, vs, i + 1);
      }
    }
  }

  lemma {:induction false} FieldsCons(ts: seq<Ty>, out: seq<Byte>, pos: nat, vs: seq<Val>)
    requires AllSupported(ts) && ts != [] && vs != []
    ensures Fields(ts, out, pos) == Ok(vs) <==> ToGo(pos, ts[0], out) == Ok(vs[0]) && Fields(ts[1..], out, pos + TypeSize(ts[0])) == Ok(vs[1..])
  {
    assert vs == [vs[0]] + vs[1..];
  }

  /** Fields decode in order exactly when each decodes where the heads before it end. */
  lemma {:induction false} FieldsExactly(ts: seq<Ty>, out: seq<Byte>, pos: nat, vs: seq<Val>)
    requires AllSupported(ts)
    ensures Fields(ts, out, pos) == Ok(vs) <==> EachField(ts, out, pos, vs)
  {
    if ts == [] || vs == [] {
      return;
    }
    FieldsCons(ts, out, pos, vs);
    FieldsExactly(ts[1..], out, pos + TypeSize(ts[0]), vs[1..]);
    if |vs| == |ts| {
      EachFieldCons(ts, out, pos, vs);
    }
  }

  lemma {:induction false} ElementsExactly(elem: Ty, out: seq<Byte>, vs: seq<Val>, size: nat)
    requires Supported(elem)
    ensures Elements(elem, out, 0, size) == Ok(vs) <==>
            |vs| == size && forall i | 0 <= i < size :: ToGo(TypeSize(elem) * i, elem, out) == Ok(vs[i])
  {
    var ts := Rep(elem, size);
    ElementsAreFields(elem, out, 0, size);
    FieldsExactly(ts, out, 0, vs);
    if |vs| == size {
      forall i | 0 <= i < size
        ensures FieldAt(ts, out, 0, vs, i) <==> ToGo(TypeSize(elem) * i, elem, out) == Ok(vs[i])
      {
        assert ts[..i] == Rep(elem, i);
        HeadSizeRep(elem, i);
      }
    }
  }

  // Words.

  lemma LowBytes(word: seq<Byte>, k: nat)
    requires |word| == 32 && k <= 32
    ensures FromBytes(word[32 - k..]) == FromBytes(word) % Pow256(k)
  {
    FromBytesLow(word, k);
  }

  /** The bytes of a native width, and of a whole word, hold the number modulo the width. */
  lemma NativeLow(word: seq<Byte>)
    requires |word| == 32
    ensures var n := FromBytes(word);
            && FromBytes(word[31..]) == n % 0x100 && FromBytes(word[30..]) == n % 0x1_0000 && FromBytes(word[28..]) == n % 0x1_0000_0000
            && FromBytes(word[24..]) == n % TWO_64 && n == n % TWO_256
  {
    WordModulus();
    LowBytes(word, 1);
    LowBytes(word, 2);
    LowBytes(word, 4);
    LowBytes(word, 8);
    LowBytes(word, 32);
    assert word[0..] == word;
  }

  lemma ReadsLow(signed: bool, bits: nat, word: seq<Byte>)
    requires |word| == 32
    ensures var m := Modulus(bits); var low := FromBytes(word) % m;
            ReadInteger(signed, bits, word) == low - if signed && low >= m / 2 then m else 0
  {
    NativeLow(word);
  }

  /** `ReadInteger` gives the one integer of the width that agrees with the word. */
  lemma IntegerExactly(signed: bool, bits: nat, word: seq<Byte>, n: int)
    requires |word| == 32
    ensures ReadInteger(signed, bits, word) == n <==> Represents(signed, bits, n, FromBytes(word))
  {
    var m := Modulus(bits);
    var low := FromBytes(word) % m;
    ReadsLow(signed, bits, word);
    ModShiftDown(low, m);
    if Represents(signed, bits, n, FromBytes(word)) {
      Residue(n, m, low);
    }
  }

  lemma ModShiftDown(low: nat, m: nat)
    requires low < m
    ensures low % m == low && (low - m) % m == low
  {
    DivModUnique(low, m, 0, low);
    DivModUnique(low - m, m, -1, low);
  }

  /** A number within one modulus of zero is its residue, or its residue less the modulus. */
  lemma Residue(n: int, m: int, low: int)
    requires m > 0 && -m <= n < m && n % m == low
    ensures (n >= 0 ==> n == low) && (n < 0 ==> n == low - m)
  {
    if n >= 0 {
      DivModUnique(n, m, 0, n);
    } else {
      DivModUnique(n, m, -1, n + m);
    }
  }

  lemma {:induction false} ZeroBytes(s: seq<Byte>)
    ensures FromBytes(s) == 0 <==> forall i | 0 <= i < |s| :: s[i] == 0
  {
    if s != [] {
      ZeroBytes(s[..|s| - 1]);
    }
  }

  /** `ReadBool` accepts the words zero and one. */
  lemma BoolExactly(word: seq<Byte>, v: Val)
    requires |word| == 32
    ensures ReadBool(word) == Ok(v) <==> v.Flag? && FromBytes(word) == if v.b then 1 else 0
  {
    ZeroBytes(word[..31]);
  }

  lemma PrefixExactly(out: seq<Byte>, index: nat, o: nat, n: nat)
    requires index + 32 <= |out|
    ensures LengthPrefix(index, out) == Ok((o, n)) <==> o == WordAt(out, index) + 32 && Announces(out, WordAt(out, index), n)
  {
  }

  lemma StringExactly(out: seq<Byte>, index: nat, s: seq<Byte>)
    requires index + 32 <= |out|
    ensures var r := LengthPrefix(index, out);
            r.Ok? && out[r.value.0..r.value.0 + r.value.1] == s <==> Spells(out, WordAt(out, index), s)
  {
    var r := LengthPrefix(index, out);
    PrefixExactly(out, index, WordAt(out, index) + 32, |s|);
    if r.Ok? {
      PrefixExactly(out, index, r.value.0, r.value.1);
    }
  }

  lemma FunctionExactly(index: nat, out: seq<Byte>, v: Val)
    requires index + 32 <= |out|
    ensures ToGoLeaf(index, FunctionT, out) == Ok(v) <==> Reads(index, FunctionT, out, v)
  {
    var word := out[index..index + 32];
    NativeLow(word);
    assert word[24..32] == word[24..];
    assert word[..24] == out[index..index + 24];
  }

  lemma LeafExactly(index: nat, t: Ty, out: seq<Byte>, v: Val)
    requires Supported(t) && index + 32 <= |out| && !t.SliceT? && !t.ArrayT? && !t.TupleT?
    ensures ToGoLeaf(index, t, out) == Ok(v) <==> Reads(index, t, out, v)
  {
    var word := out[index..index + 32];
    match t
    case UintT(bits) => IntegerExactly(false, bits, word, if v.Num? then v.n else 0);
    case IntT(bits) => IntegerExactly(true, bits, word, if v.Num? then v.n else 0);
    case BoolT => BoolExactly(word, v);
    case AddressT => assert word[12..] == out[index + 12..index + 32];
    case FixedBytesT(len) => assert word[..len] == out[index..index + len];
    case FunctionT => FunctionExactly(index, out, v);
    case StringT => TextExactly(index, out, if v.Text? then v.text else []);
    case BytesT => TextExactly(index, out, if v.Raw? then v.raw else []);
  }

  lemma TextExactly(index: nat, out: seq<Byte>, s: seq<Byte>)
    requires index + 32 <= |out|
    ensures ToGoLeaf(index, StringT, out) == Ok(Text(s)) <==> Spells(out, WordAt(out, index), s)
    ensures ToGoLeaf(index, BytesT, out) == Ok(Raw(s)) <==> Spells(out, WordAt(out, index), s)
  {
    StringExactly(out, index, s);
  }

  // All types.

  lemma {:induction false} EachExactly(elem: Ty, out: seq<Byte>, size: nat, vs: seq<Val>)
    requires Supported(elem)
    ensures Each(elem, out, size) == Ok(vs) <==> |vs| == size && ReadsEach(elem, out, vs)
    decreases elem, 1
  {
    ElementsExactly(elem, out, vs, size);
    forall i | 0 <= i < |vs|
      ensures ToGo(TypeSize(elem) * i, elem, out) == Ok(vs[i]) <==> Reads(TypeSize(elem) * i, elem, out, vs[i])
    {
      DecodesExactly(TypeSize(elem) * i, elem, out, vs[i]);
    }
  }

  /** Whatever the bytes: the decoder answers with a value exactly when the bytes spell that value. */
  lemma {:induction false} DecodesExactly(index: nat, t: Ty, out: seq<Byte>, v: Val)
    requires Supported(t)
    ensures ToGo(index, t, out) == Ok(v) <==> Reads(index, t, out, v)
    decreases t, 0
  {
    if index + 32 <= |out| {
      match t
      case SliceT(elem) => SliceExactly(index, elem, out, v);
      case ArrayT(elem, size) => ArrayExactly(index, elem, size, out, v);
      case TupleT(elems) => TupleExactly(index, elems, out, v);
      case _ => LeafExactly(index, t, out, v);
    }
  }

  lemma {:induction false} SliceExactly(index: nat, elem: Ty, out: seq<Byte>, v: Val)
    requires Supported(elem) && index + 32 <= |out|
    ensures ToGo(index, SliceT(elem), out) == Ok(v) <==> Reads(index, SliceT(elem), out, v)
    decreases elem, 2
  {
    var r, o := LengthPrefix(index, out), WordAt(out, index);
    if v.List? {
      PrefixExactly(out, index, o + 32, |v.vals|);
      if r.Ok? {
        PrefixExactly(out, index, r.value.0, r.value.1);
        EachExactly(elem, out[o + 32..], r.value.1, v.vals);
      }
    }
  }

  lemma {:induction false} ArrayExactly(index: nat, elem: Ty, size: nat, out: seq<Byte>, v: Val)
    requires Supported(elem) && index + 32 <= |out|
    ensures ToGo(index, ArrayT(elem, size), out) == Ok(v) <==> Reads(index, ArrayT(elem, size), out, v)
    decreases elem, 2
  {
    var word := out[index..index + 32];
    NativeLow(word);
    assert word[24..] == out[index + 24..index + 32];
    var o := if IsDynamic(elem) then WordAt(out, index) % TWO_64 else index;
    assert (if IsDynamic(elem) then ArrayPointer(index, out) else Ok(index)) == if o <= |out| then Ok(o) else Err(OffsetOutOfBounds);
    if v.List? && o <= |out| {
      EachExactly(elem, out[o..], size, v.vals);
    }
  }

  lemma {:induction false} TupleExactly(index: nat, elems: seq<Ty>, out: seq<Byte>, v: Val)
    requires AllSupported(elems) && index + 32 <= |out|
    ensures ToGo(index, TupleT(elems), out) == Ok(v) <==> Reads(index, TupleT(elems), out, v)
    decreases elems, 2
  {
    var o := if IsDynamic(TupleT(elems)) then WordAt(out, index) else index;
    if v.List? && o <= |out| {
      FieldsExactly(elems, out[o..], 0, v.vals);
      if |v.vals| == |elems| {
        forall i | 0 <= i < |elems|
          ensures FieldAt(elems, out[o..], 0, v.vals, i) <==> Reads(HeadSize(elems[..i]), elems[i], out[o..], v.vals[i])
        {
          DecodesExactly(HeadSize(elems[..i]), elems[i], out[o..], v.vals[i]);
        }
      }
    }
  }

  /** `UnpackValues` answers exactly with the values that the data spells, each field where the heads before it end. */
  lemma {:induction false} UnpackExactly(ts: seq<Ty>, data: seq<Byte>, vs: seq<Val>)
    requires AllSupported(ts)
    ensures Fields(ts, data, 0) == Ok(vs) <==>
            |vs| == |ts| && forall i | 0 <= i < |ts| :: Reads(HeadSize(ts[..i]), ts[i], data, vs[i])
  {
    FieldsExactly(ts, data, 0, vs);
    if |vs| == |ts| {
      forall i | 0 <= i < |ts|
        ensures FieldAt(ts, data, 0, vs, i) <==> Reads(HeadSize(ts[..i]), ts[i], data, vs[i])
      {
        DecodesExactly(HeadSize(ts[..i]), ts[i], data, vs[i]);
      }
    }
  }

  // Errors.

  /** Why a length prefix is refused: where it points, and what it announces there. */
  lemma PrefixErrors(out: seq<Byte>, index: nat)
    requires index + 32 <= |out|
    ensures var r, o := LengthPrefix(index, out), WordAt(out, index);
            && (r == Err(OffsetOutOfBounds) <==> o + 32 > |out|)
            && (r == Err(OffsetTooLarge) <==> TWO_63 <= o + 32 <= |out|)
            && (o + 32 <= |out| && o + 32 < TWO_63 ==>
                  var end := o + 32 + WordAt(out, o);
                  && (r == Err(LengthTooLarge) <==> end >= TWO_63)
                  && (r == Err(LengthOutOfBounds) <==> |out| < end < TWO_63))
  {
  }

  /** Why a leaf is refused. */
  lemma LeafErrors(index: nat, t: Ty, out: seq<Byte>)
    requires Supported(t) && index + 32 <= |out| && !t.SliceT? && !t.ArrayT? && !t.TupleT?
    ensures match t
            case BoolT => ToGo(index, t, out) == Err(BadBool) <==> WordAt(out, index) > 1
            case FunctionT => ToGo(index, t, out) == Err(BadFunction) <==> WordAt(out, index) % TWO_64 != 0
            case StringT => ToGo(index, t, out).Err? ==> LengthPrefix(index, out) == Err(ToGo(index, t, out).error)
            case BytesT => ToGo(index, t, out).Err? ==> LengthPrefix(index, out) == Err(ToGo(index, t, out).error)
            case _ => ToGo(index, t, out).Ok?
  {
    var word := out[index..index + 32];
    if t.BoolT? {
      BoolExactly(word, Flag(true));
      BoolExactly(word, Flag(false));
    } else if t.FunctionT? {
      NativeLow(word);
      assert word[24..32] == word[24..];
    }
  }

  /** A list of fields is refused with the error of the first field that is. */
  lemma {:induction false} FirstFieldFails(ts: seq<Ty>, out: seq<Byte>, pos: nat) returns (k: nat)
    requires AllSupported(ts) && Fields(ts, out, pos).Err?
    ensures k < |ts| && Fields(ts[..k], out, pos).Ok?
    ensures ToGo(pos + HeadSize(ts[..k]), ts[k], out) == Err(Fields(ts, out, pos).error)
  {
    if ToGo(pos, ts[0], out).Err? {
      k := 0;
      assert ts[..0] == [];
    } else {
      var i := FirstFieldFails(ts[1..], out, pos + TypeSize(ts[0]));
      k := i + 1;
      HeadSizeSplit(ts, k);
      assert ts[..k][1..] == ts[1..][..i] && ts[..k][0] == ts[0];
    }
  }

  /** Why a value is refused: no word at its head, no room for its elements, a bad offset, or its first bad component. */
  lemma CompositeErrors(index: nat, t: Ty, out: seq<Byte>)
    requires Supported(t)
    ensures ToGo(index, t, out) == Err(InputTooShort) <== index + 32 > |out|
    ensures index + 32 <= |out| && t.SliceT? && LengthPrefix(index, out).Err? ==> ToGo(index, t, out) == Err(LengthPrefix(index, out).error)
    ensures index + 32 <= |out| && t.ArrayT? && IsDynamic(t.elem) && WordAt(out, index) % TWO_64 > |out| ==> ToGo(index, t, out) == Err(OffsetOutOfBounds)
    ensures index + 32 <= |out| && t.TupleT? && IsDynamic(t) && WordAt(out, index) > |out| ==> ToGo(index, t, out) == Err(OffsetOutOfBounds)
    ensures index + 32 <= |out| && t.ArrayT? && !IsDynamic(t.elem) && 32 * t.size > |out| - index ==> ToGo(index, t, out) == Err(ArrayOutOfBounds)
  {
    if index + 32 <= |out| {
      var word := out[index..index + 32];
      NativeLow(word);
      assert word[24..] == out[index + 24..index + 32];
    }
  }
}
