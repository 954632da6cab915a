/** Decoding arbitrary input: a success never depends on what follows, and is a value of the type. */
module AbiStable {
  import opened Bytes
  import opened AbiTypes
  import opened AbiDecode

  lemma DropAppend(data: seq<Byte>, suffix: seq<Byte>, i: nat)
    requires i <= |data|
    ensures (data + suffix)[i..] == data[i..] + suffix
  {
  }

  lemma SliceAppend(data: seq<Byte>, suffix: seq<Byte>, i: nat, j: nat)
    requires i <= j <= |data|
    ensures (data + suffix)[i..j] == data[i..j]
  {
  }

  lemma StablePointers(index: nat, data: seq<Byte>, suffix: seq<Byte>)
    requires index + 32 <= |data|
    ensures LengthPrefix(index, data).Ok? ==> LengthPrefix(index, data + suffix) == LengthPrefix(index, data)
    ensures TuplePointer(index, data).Ok? ==> TuplePointer(index, data + suffix) == TuplePointer(index, data)
    ensures ArrayPointer(index, data).Ok? ==> ArrayPointer(index, data + suffix) == ArrayPointer(index, data)
  {
    SliceAppend(data, suffix, index, index + 32);
    SliceAppend(data, suffix, index + 24, index + 32);
    var offsetEnd := FromBytes(data[index..index + 32]) + 32;
    if offsetEnd <= |data| {
      SliceAppend(data, suffix, offsetEnd - 32, offsetEnd);
    }
  }

  lemma StableLeaf(index: nat, t: Ty, data: seq<Byte>, suffix: seq<Byte>)
    requires Supported(t) && !t.SliceT? && !t.ArrayT? && !t.TupleT? && index + 32 <= |data|
    requires ToGoLeaf(index, t, data).Ok?
    ensures ToGoLeaf(index, t, data + suffix) == ToGoLeaf(index, t, data)
  {
    SliceAppend(data, suffix, index, index + 32);
    StablePointers(index, data, suffix);
    if t.StringT? || t.BytesT? {
      var p := LengthPrefix(index, data).value;
      SliceAppend(data, suffix, p.0, p.0 + p.1);
    }
  }

  /** If `toGoType` succeeds on `data`, it succeeds with the same value on any extension of `data`. */
  lemma {:induction false} Stable(index: nat, t: Ty, data: seq<Byte>, suffix: seq<Byte>)
    requires Supported(t) && ToGo(index, t, data).Ok?
    ensures ToGo(index, t, data + suffix) == ToGo(index, t, data)
    decreases t, 0
  {
    match t
    case TupleT(elems) =>
      StablePointers(index, data, suffix);
      var begin := if IsDynamic(t) then TuplePointer(index, data).value else index;
      DropAppend(data, suffix, begin);
      StableFields(elems, data[begin..], suffix, 0);
    case SliceT(elem) =>
      StablePointers(index, data, suffix);
      var p := LengthPrefix(index, data).value;
      DropAppend(data, suffix, p.0);
      StableElements(elem, data[p.0..], suffix, 0, p.1);
    case ArrayT(elem, size) =>
      StablePointers(index, data, suffix);
      var begin := if IsDynamic(elem) then ArrayPointer(index, data).value else index;
      DropAppend(data, suffix, begin);
      StableElements(elem, data[begin..], suffix, 0, size);
    case _ => StableLeaf(index, t, data, suffix);
  }

  lemma {:induction false} StableElements(elem: Ty, data: seq<Byte>, suffix: seq<Byte>, pos: nat, size: nat)
    requires Supported(elem) && Elements(elem, data, pos, size).Ok?
    ensures Elements(elem, data + suffix, pos, size) == Elements(elem, data, pos, size)
    decreases elem, size
  {
    if size > 0 {
      Stable(pos, elem, data, suffix);
      StableElements(elem, data, suffix, pos + TypeSize(elem), size - 1);
    }
  }

  lemma {:induction false} StableFields(ts: seq<Ty>, data: seq<Byte>, suffix: seq<Byte>, pos: nat)
    requires AllSupported(ts) && Fields(ts, data, pos).Ok?
    ensures Fields(ts, data + suffix, pos) == Fields(ts, data, pos)
    decreases ts, 0
  {
    if ts != [] {
      Stable(pos, ts[0], data, suffix);
      StableFields(ts[1..], data, suffix, pos + TypeSize(ts[0]));
    }
  }

  lemma ReadIntegerInWord(signed: bool, bits: nat, word: seq<Byte>)
    requires |word| == 32
    ensures InWord(signed, bits, ReadInteger(signed, bits, word))
  {
    var k := if Native(bits) then bits / 8 else 32;
    FromBytesBound(word[32 - k..]);
    assert word[0..] == word;
    assert Pow256(k) == Modulus(bits) by { WordModulus(); }
  }

  /** Whatever the bytes, a decoded value has the type asked for. */
  lemma {:induction false} DecodesToType(index: nat, t: Ty, data: seq<Byte>)
    requires Supported(t) && ToGo(index, t, data).Ok?
    ensures HasType(t, ToGo(index, t, data).value)
    decreases t, 0
  {
    match t
    case UintT(bits) => ReadIntegerInWord(false, bits, data[index..index + 32]);
    case IntT(bits) => ReadIntegerInWord(true, bits, data[index..index + 32]);
    case TupleT(elems) =>
      var begin := if IsDynamic(t) then TuplePointer(index, data).value else index;
      FieldsDecodeToTypes(elems, data[begin..], 0);
    case SliceT(elem) =>
      var p := LengthPrefix(index, data).value;
      ElementsDecodeToType(elem, data[p.0..], 0, p.1);
    case ArrayT(elem, size) =>
      var begin := if IsDynamic(elem) then ArrayPointer(index, data).value else index;
      ElementsDecodeToType(elem, data[begin..], 0, size);
    case _ =>
  }

  lemma {:induction false} ElementsDecodeToType(elem: Ty, data: seq<Byte>, pos: nat, size: nat)
    requires Supported(elem) && Elements(elem, data, pos, size).Ok?
    ensures HaveTypes(Rep(elem, size), Elements(elem, data, pos, size).value)
    decreases elem, size
  {
    if size > 0 {
      DecodesToType(pos, elem, data);
      ElementsDecodeToType(elem, data, pos + TypeSize(elem), size - 1);
    }
  }

  lemma {:induction false} FieldsDecodeToTypes(ts: seq<Ty>, data: seq<Byte>, pos: nat)
    requires AllSupported(ts) && Fields(ts, data, pos).Ok?
    ensures HaveTypes(ts, Fields(ts, data, pos).value)
    decreases ts, 0
  {
    if ts != [] {
      DecodesToType(pos, ts[0], data);
      FieldsDecodeToTypes(ts[1..], data, pos + TypeSize(ts[0]));
    }
  }
}
