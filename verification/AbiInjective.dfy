/** The encoding is injective, zero-size components included: no two values of the same types pack to the same bytes. */
module AbiInjective {
  import opened Bytes
  import opened AbiTypes
  import opened AbiLayout
  import opened AbiEncode
  import opened AbiRoundTrip

  /** Two values of a type placed at the same position, with the same tail, are equal. */
  lemma {:induction false} ValueUnique(t: Ty, v: Val, w: Val, out: seq<Byte>, pos: nat, off: nat)
    requires Supported(t) && HasType(t, v) && HasType(t, w) && Representable(t, v) && Representable(t, w) && |out| < TWO_63
    requires Placed(IsDynamic(t), Enc(t, v), out, pos, off) && Placed(IsDynamic(t), Enc(t, w), out, pos, off)
    ensures v == w
    decreases v, 0
  {
    match t
    case SliceT(elem) => SliceUnique(elem, v.vals, w.vals, out, off);
    case ArrayT(elem, size) => FrameUnique(Rep(elem, size), v.vals, w.vals, out, if IsDynamic(t) then off else pos);
    case TupleT(elems) => FrameUnique(elems, v.vals, w.vals, out, if IsDynamic(t) then off else pos);
    case _ =>
      LeafRoundTrip(t, v, out, pos, off);
      LeafRoundTrip(t, w, out, pos, off);
      NormIdentity(t, v);
      NormIdentity(t, w);
  }

  /** Slices at the same position have the same length word, hence the same length, hence frames of the same types. */
  lemma {:induction false} SliceUnique(elem: Ty, vs: seq<Val>, ws: seq<Val>, out: seq<Byte>, off: nat)
    requires Supported(elem) && HaveTypes(Rep(elem, |vs|), vs) && HaveTypes(Rep(elem, |ws|), ws) && |out| < TWO_63
    requires AllRepresentable(Rep(elem, |vs|), vs) && AllRepresentable(Rep(elem, |ws|), ws) && |vs| < TWO_63 && |ws| < TWO_63
    requires At(out, off, PackNum(|vs|) + EncFrame(Rep(elem, |vs|), vs)) && At(out, off, PackNum(|ws|) + EncFrame(Rep(elem, |ws|), ws))
    ensures vs == ws
    decreases vs, 3
  {
    AtSplit(out, off, PackNum(|vs|), EncFrame(Rep(elem, |vs|), vs));
    AtSplit(out, off, PackNum(|ws|), EncFrame(Rep(elem, |ws|), ws));
    ReadPackNum(|vs|);
    ReadPackNum(|ws|);
    FrameUnique(Rep(elem, |vs|), vs, ws, out, off + 32);
  }

  /** Heads of representable values from `pos`, with their tails from `off`. */
  ghost predicate FieldsAt(ts: seq<Ty>, vs: seq<Val>, out: seq<Byte>, pos: nat, off: nat) {
    && AllSupported(ts) && HaveTypes(ts, vs) && AllRepresentable(ts, vs)
    && At(out, pos, Heads(Parts(ts, vs), off)) && At(out, off, Tails(Parts(ts, vs)))
  }

  lemma {:induction false} FrameUnique(ts: seq<Ty>, vs: seq<Val>, ws: seq<Val>, out: seq<Byte>, begin: nat)
    requires AllSupported(ts) && HaveTypes(ts, vs) && HaveTypes(ts, ws) && AllRepresentable(ts, vs) && AllRepresentable(ts, ws)
    requires |out| < TWO_63 && At(out, begin, EncFrame(ts, vs)) && At(out, begin, EncFrame(ts, ws))
    ensures vs == ws
    decreases vs, 2
  {
    FrameSplit(ts, vs, out, begin);
    FrameSplit(ts, ws, out, begin);
    FieldsUnique(ts, vs, ws, out[begin..], 0, HeadSize(ts));
  }

  lemma FrameSplit(ts: seq<Ty>, vs: seq<Val>, out: seq<Byte>, begin: nat)
    requires AllSupported(ts) && HaveTypes(ts, vs) && AllRepresentable(ts, vs) && At(out, begin, EncFrame(ts, vs))
    ensures FieldsAt(ts, vs, out[begin..], 0, HeadSize(ts))
  {
    var ps, start := Parts(ts, vs), HeadSize(ts);
    PartsHeadLen(ts, vs);
    HeadsSize(ps, start);
    AtSplit(out, begin, Heads(ps, start), Tails(ps));
    AtDrop(out, begin, 0, Heads(ps, start));
    AtDrop(out, begin, start, Tails(ps));
  }

  lemma FirstPlaced(ts: seq<Ty>, vs: seq<Val>, out: seq<Byte>, pos: nat, off: nat)
    requires FieldsAt(ts, vs, out, pos, off) && vs != []
    ensures Supported(ts[0]) && HasType(ts[0], vs[0]) && Representable(ts[0], vs[0])
    ensures Placed(IsDynamic(ts[0]), Enc(ts[0], vs[0]), out, pos, off)
  {
    var off' := NextOffset(ts, vs, out, pos, off);
  }

  lemma RestPlaced(ts: seq<Ty>, vs: seq<Val>, out: seq<Byte>, pos: nat, off: nat, off': nat)
    requires FieldsAt(ts, vs, out, pos, off) && vs != []
    requires off' == if IsDynamic(ts[0]) then off + |Enc(ts[0], vs[0])| else off
    ensures FieldsAt(ts[1..], vs[1..], out, pos + TypeSize(ts[0]), off')
  {
    var next := NextOffset(ts, vs, out, pos, off);
  }

  lemma {:induction false} FieldsUnique(ts: seq<Ty>, vs: seq<Val>, ws: seq<Val>, out: seq<Byte>, pos: nat, off: nat)
    requires |out| < TWO_63 && FieldsAt(ts, vs, out, pos, off) && FieldsAt(ts, ws, out, pos, off)
    ensures vs == ws
    decreases vs, 1
  {
    if vs != [] {
      FirstPlaced(ts, vs, out, pos, off);
      FirstPlaced(ts, ws, out, pos, off);
      ValueUnique(ts[0], vs[0], ws[0], out, pos, off);
      RestUnique(ts, vs, ws, out, pos, off);
    }
  }

  /** With the first values equal, the remaining ones start at the same places. */
  lemma {:induction false} RestUnique(ts: seq<Ty>, vs: seq<Val>, ws: seq<Val>, out: seq<Byte>, pos: nat, off: nat)
    requires |out| < TWO_63 && FieldsAt(ts, vs, out, pos, off) && FieldsAt(ts, ws, out, pos, off) && vs != [] && vs[0] == ws[0]
    ensures vs == ws
    decreases vs, 0
  {
    var off' := if IsDynamic(ts[0]) then off + |Enc(ts[0], vs[0])| else off;
    RestPlaced(ts, vs, out, pos, off, off');
    RestPlaced(ts, ws, out, pos, off, off');
    FieldsUnique(ts[1..], vs[1..], ws[1..], out, pos + TypeSize(ts[0]), off');
    assert vs == [vs[0]] + vs[1..] && ws == [ws[0]] + ws[1..];
  }

  /** Different representable argument values never pack to the same bytes. */
  lemma PackInjective(ts: seq<Ty>, vs: seq<Val>, ws: seq<Val>)
    requires AllSupported(ts) && HaveTypes(ts, vs) && AllRepresentable(ts, vs) && HaveTypes(ts, ws) && AllRepresentable(ts, ws)
    requires |EncFrame(ts, vs)| < TWO_63 && EncFrame(ts, vs) == EncFrame(ts, ws)
    ensures vs == ws
  {
    var data := EncFrame(ts, vs);
    assert data[0..|data|] == data;
    FrameUnique(ts, vs, ws, data, 0);
  }
}
