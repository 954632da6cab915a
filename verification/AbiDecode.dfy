/** The decoder: `toGoType`, its helpers and `Arguments.UnpackValues` (accounts/abi/unpack.go, argument.go). */
module AbiDecode {
  import opened Wrappers
  import opened Bytes
  import opened AbiTypes

  datatype DecodeError =
    | InputTooShort
    | OffsetOutOfBounds
    | OffsetTooLarge
    | LengthTooLarge
    | LengthOutOfBounds
    | ArrayOutOfBounds
    | BadBool
    | BadFunction
    | EmptyInput

  type Decoded<T> = Result<T, DecodeError>

  /** `ReadInteger`: the low-order bytes of a native width, the whole word otherwise, sign-corrected. */
  function ReadInteger(signed: bool, bits: nat, word: seq<Byte>): int
    requires |word| == 32
  {
    var n := match bits
             case 8 => FromBytes(word[31..])
             case 16 => FromBytes(word[30..])
             case 32 => FromBytes(word[28..])
             case 64 => FromBytes(word[24..])
             case _ => FromBytes(word);
    if signed && n >= Modulus(bits) / 2 then n - Modulus(bits) else n
  }

  function ReadBool(word: seq<Byte>): Decoded<Val>
    requires |word| == 32
  {
    if exists i | 0 <= i < 31 :: word[i] != 0 then Err(BadBool)
    else if word[31] == 0 then Ok(Flag(false))
    else if word[31] == 1 then Ok(Flag(true))
    else Err(BadBool)
  }

  function ReadFunction(word: seq<Byte>): Decoded<Val>
    requires |word| == 32
  {
    if FromBytes(word[24..32]) != 0 then Err(BadFunction) else Ok(Raw(word[..24]))
  }

  /** `lengthPrefixPointsTo`: where the contents start and how long they are. */
  function LengthPrefix(index: nat, out: seq<Byte>): (r: Decoded<(nat, nat)>)
    requires index + 32 <= |out|
    ensures r.Ok? ==> r.value.0 + r.value.1 <= |out|
  {
    var offsetEnd := FromBytes(out[index..index + 32]) + 32;
    if offsetEnd > |out| then Err(OffsetOutOfBounds)
    else if offsetEnd >= TWO_63 then Err(OffsetTooLarge)
    else
      var length := FromBytes(out[offsetEnd - 32..offsetEnd]);
      if offsetEnd + length >= TWO_63 then Err(LengthTooLarge)
      else if offsetEnd + length > |out| then Err(LengthOutOfBounds)
      else Ok((offsetEnd, length))
  }

  /** `tuplePointsTo`. */
  function TuplePointer(index: nat, out: seq<Byte>): (r: Decoded<nat>)
    requires index + 32 <= |out|
    ensures r.Ok? ==> r.value <= |out|
  {
    var offset := FromBytes(out[index..index + 32]);
    if offset > |out| then Err(OffsetOutOfBounds)
    else if offset >= TWO_63 then Err(OffsetTooLarge)
    else Ok(offset)
  }

  /** Dynamic arrays read only the low 64 bits of their offset word. */
  function ArrayPointer(index: nat, out: seq<Byte>): (r: Decoded<nat>)
    requires index + 32 <= |out|
    ensures r.Ok? ==> r.value <= |out|
  {
    var offset := FromBytes(out[index + 24..index + 32]);
    if offset > |out| then Err(OffsetOutOfBounds) else Ok(offset)
  }

  /** The value types of `toGoType`, read from the word at `index`. */
  function ToGoLeaf(index: nat, t: Ty, out: seq<Byte>): Decoded<Val>
    requires Supported(t) && index + 32 <= |out|
    requires !t.SliceT? && !t.ArrayT? && !t.TupleT?
  {
    var word := out[index..index + 32];
    match t
    case UintT(bits) => Ok(Num(ReadInteger(false, bits, word)))
    case IntT(bits) => Ok(Num(ReadInteger(true, bits, word)))
    case BoolT => ReadBool(word)
    case AddressT => Ok(Raw(word[12..]))
    case FixedBytesT(len) => Ok(Raw(word[..len]))
    case FunctionT => ReadFunction(word)
    case StringT =>
      var p :- LengthPrefix(index, out);
      Ok(Text(out[p.0..p.0 + p.1]))
    case BytesT =>
      var p :- LengthPrefix(index, out);
      Ok(Raw(out[p.0..p.0 + p.1]))
  }

  /** `toGoType`: the value of type `t` whose head is at `index` of the frame `out`. */
  function ToGo(index: nat, t: Ty, out: seq<Byte>): Decoded<Val>
    requires Supported(t)
    decreases t, 0
  {
    if index + 32 > |out| then Err(InputTooShort)
    else
      match t
      case TupleT(elems) =>
        var begin :- if IsDynamic(t) then TuplePointer(index, out) else Ok(index);
        var vs :- Fields(elems, out[begin..], 0);
        Ok(List(vs))
      case SliceT(elem) =>
        var p :- LengthPrefix(index, out);
        var vs :- Each(elem, out[p.0..], p.1);
        Ok(List(vs))
      case ArrayT(elem, size) =>
        var begin :- if IsDynamic(elem) then ArrayPointer(index, out) else Ok(index);
        var vs :- Each(elem, out[begin..], size);
        Ok(List(vs))
      case _ => ToGoLeaf(index, t, out)
  }

  /** `vs` are read; `rest` is what the remaining components decode to. */
  function Prepend(vs: seq<Val>, rest: Decoded<seq<Val>>): Decoded<seq<Val>> {
    if rest.Ok? then Ok(vs + rest.value) else rest
  }

  lemma PrependEmpty(r: Decoded<seq<Val>>)
    ensures Prepend([], r) == r
  {
    assert r.Ok? ==> [] + r.value == r.value;
  }

  lemma PrependSnoc(vs: seq<Val>, v: Val, rest: Decoded<seq<Val>>)
    ensures Prepend(vs, Prepend([v], rest)) == Prepend(vs + [v], rest)
  {
    assert rest.Ok? ==> vs + ([v] + rest.value) == (vs + [v]) + rest.value;
  }

  /** `forEachUnpack` with `start` 0: a bound check, then the elements side by side. */
  function Each(elem: Ty, out: seq<Byte>, size: nat): Decoded<seq<Val>>
    requires Supported(elem)
    decreases elem, size, 1
  {
    if 32 * size > |out| then Err(ArrayOutOfBounds) else Elements(elem, out, 0, size)
  }

  function Elements(elem: Ty, out: seq<Byte>, pos: nat, size: nat): Decoded<seq<Val>>
    requires Supported(elem)
    decreases elem, size, 0
  {
    if size == 0 then Ok([])
    else
      var v :- ToGo(pos, elem, out);
      Prepend([v], Elements(elem, out, pos + TypeSize(elem), size - 1))
  }

  /** `forTupleUnpack`, and the loop of `UnpackValues`: each field's head follows the previous one's. */
  function Fields(ts: seq<Ty>, out: seq<Byte>, pos: nat): Decoded<seq<Val>>
    requires AllSupported(ts)
    decreases ts, 0
  {
    if ts == [] then Ok([])
    else
      var v :- ToGo(pos, ts[0], out);
      Prepend([v], Fields(ts[1..], out, pos + TypeSize(ts[0])))
  }

  /** Elements of a list decode as the fields of a tuple with that many equal types. */
  lemma {:induction false} ElementsAreFields(elem: Ty, out: seq<Byte>, pos: nat, size: nat)
    requires Supported(elem)
    ensures Elements(elem, out, pos, size) == Fields(Rep(elem, size), out, pos)
    decreases size
  {
    if size > 0 {
      RepTail(elem, size);
      ElementsAreFields(elem, out, pos + TypeSize(elem), size - 1);
    }
  }

  /** `toGoType`. */
  method ToGoType(index: nat, t: Ty, out: seq<Byte>) returns (r: Decoded<Val>)
    requires Supported(t)
    ensures r == ToGo(index, t, out)
    decreases t, 0
  {
    if index + 32 > |out| {
      return Err(InputTooShort);
    }
    match t
    case TupleT(elems) =>
      var begin := index;
      if IsDynamic(t) {
        begin :- TuplePointer(index, out);
      }
      var vs :- ForTupleUnpack(elems, out[begin..]);
      r := Ok(List(vs));
    case SliceT(elem) =>
      var p :- LengthPrefix(index, out);
      var vs :- ForEachUnpack(elem, out[p.0..], p.1);
      r := Ok(List(vs));
    case ArrayT(elem, size) =>
      var begin := index;
      if IsDynamic(elem) {
        begin :- ArrayPointer(index, out);
      }
      var vs :- ForEachUnpack(elem, out[begin..], size);
      r := Ok(List(vs));
    case _ =>
      r := ToGoLeaf(index, t, out);
  }

  lemma ElementsStep(elem: Ty, out: seq<Byte>, pos: nat, size: nat, vs: seq<Val>)
    requires Supported(elem) && size > 0
    ensures var v := ToGo(pos, elem, out);
            Prepend(vs, Elements(elem, out, pos, size)) ==
            if v.Err? then Err(v.error) else Prepend(vs + [v.value], Elements(elem, out, pos + TypeSize(elem), size - 1))
  {
    var v := ToGo(pos, elem, out);
    if v.Ok? {
      PrependSnoc(vs, v.value, Elements(elem, out, pos + TypeSize(elem), size - 1));
    }
  }

  /** `forEachUnpack`: positions advance by the element size. */
  method ForEachUnpack(elem: Ty, out: seq<Byte>, size: nat) returns (r: Decoded<seq<Val>>)
    requires Supported(elem)
    ensures r == Each(elem, out, size)
    decreases elem, size + 1
  {
    if 32 * size > |out| {
      return Err(ArrayOutOfBounds);
    }
    var i, j := 0, 0;
    var vs := [];
    PrependEmpty(Elements(elem, out, 0, size));
    while j < size
      invariant 0 <= j <= size && i >= 0
      invariant Elements(elem, out, 0, size) == Prepend(vs, Elements(elem, out, i, size - j))
    {
      ElementsStep(elem, out, i, size - j, vs);
      var v :- ToGoType(i, elem, out);
      vs := vs + [v];
      i, j := i + TypeSize(elem), j + 1;
    }
    assert vs + [] == vs;
    r := Ok(vs);
  }

  /** `forTupleUnpack`: positions are counted in words, static arrays and tuples adding virtual arguments. */
  method ForTupleUnpack(ts: seq<Ty>, out: seq<Byte>) returns (r: Decoded<seq<Val>>)
    requires AllSupported(ts)
    ensures r == Fields(ts, out, 0)
    decreases ts, 0
  {
    var vs, virtualArgs := [], 0;
    assert ts[0..] == ts;
    PrependEmpty(Fields(ts, out, 0));
    for index := 0 to |ts|
      invariant index + virtualArgs >= 0
      invariant Fields(ts, out, 0) == Prepend(vs, Fields(ts[index..], out, (index + virtualArgs) * 32))
    {
      var v :- ToGoType((index + virtualArgs) * 32, ts[index], out);
      ghost var before := (index + virtualArgs) * 32;
      if ts[index].ArrayT? && !IsDynamic(ts[index]) {
        virtualArgs := virtualArgs + (TypeSize(ts[index]) / 32 - 1);
      } else if ts[index].TupleT? && !IsDynamic(ts[index]) {
        virtualArgs := virtualArgs + (TypeSize(ts[index]) / 32 - 1);
      }
      VirtualArgs(ts[index]);
      assert (index + 1 + virtualArgs) * 32 == before + TypeSize(ts[index]);
      assert ts[index..][1..] == ts[index + 1..];
      PrependSnoc(vs, v, Fields(ts[index + 1..], out, before + TypeSize(ts[index])));
      vs := vs + [v];
    }
    assert vs + [] == vs;
    r := Ok(vs);
  }

  /** Counting virtual arguments is counting head bytes. */
  lemma VirtualArgs(t: Ty)
    ensures (t.ArrayT? || t.TupleT?) && !IsDynamic(t) ==> 32 + (TypeSize(t) / 32 - 1) * 32 == TypeSize(t)
    ensures !((t.ArrayT? || t.TupleT?) && !IsDynamic(t)) ==> TypeSize(t) == 32
  {
    TypeSizeWhole(t);
  }

  /** An argument of an event or method; indexed ones travel in topics and are not decoded here. */
  datatype Argument = Argument(ty: Ty, indexed: bool)

  function NonIndexed(args: seq<Argument>): seq<Ty> {
    if args == [] then [] else (if args[0].indexed then [] else [args[0].ty]) + NonIndexed(args[1..])
  }

  /** An argument counts for its type if it is not indexed, else for nothing. */
  lemma NonIndexedOne(x: Argument)
    ensures NonIndexed([x]) == if x.indexed then [] else [x.ty]
  {
    assert [x][1..] == [];
  }

  /** Lists of arguments count in order. */
  lemma {:induction false} NonIndexedConcat(a: seq<Argument>, b: seq<Argument>)
    ensures NonIndexed(a + b) == NonIndexed(a) + NonIndexed(b)
  {
    if a == [] {
      assert a + b == b && NonIndexed(a) + NonIndexed(b) == NonIndexed(b);
    } else {
      var first := if a[0].indexed then [] else [a[0].ty];
      NonIndexedConcat(a[1..], b);
      assert (a + b)[1..] == a[1..] + b;
      assert NonIndexed(a + b) == first + (NonIndexed(a[1..]) + NonIndexed(b));
    }
  }

  /** `Arguments.NonIndexed`. */
  method FilterNonIndexed(args: seq<Argument>) returns (ts: seq<Ty>)
    ensures ts == NonIndexed(args)
  {
    ts := [];
    assert args[0..] == args;
    for i := 0 to |args|
      invariant ts + NonIndexed(args[i..]) == NonIndexed(args)
    {
      assert args[i..][1..] == args[i + 1..];
      if !args[i].indexed {
        ts := ts + [args[i].ty];
      }
    }
  }

  /** `Arguments.UnpackValues` over the non-indexed arguments. */
  method UnpackValues(args: seq<Argument>, data: seq<Byte>) returns (r: Decoded<seq<Val>>)
    requires AllSupported(NonIndexed(args))
    ensures r == Fields(NonIndexed(args), data, 0)
  {
    var ts := FilterNonIndexed(args);
    r := ForTupleUnpack(ts, data);
  }

  /** `Arguments.Unpack`: empty input is an error only when values are expected. */
  method Unpack(args: seq<Argument>, data: seq<Byte>) returns (r: Decoded<seq<Val>>)
    requires AllSupported(NonIndexed(args))
    ensures data == [] ==> r == if NonIndexed(args) == [] then Ok([]) else Err(EmptyInput)
    ensures data != [] ==> r == Fields(NonIndexed(args), data, 0)
  {
    if |data| == 0 {
      var ts := FilterNonIndexed(args);
      return if |ts| != 0 then Err(EmptyInput) else Ok([]);
    }
    r := UnpackValues(args, data);
  }
}
