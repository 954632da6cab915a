/**
 The head/tail layout of one frame, over components that are already encoded: the Contract ABI
 Specification, section "Formal Specification of the Encoding", and the running offset that computes it.
 */
module AbiLayout {
  import opened Bytes

  /** An encoded component: static parts sit in the head, dynamic ones leave an offset there. */
  datatype Part = Part(dyn: bool, enc: seq<Byte>)

  /** `packNum`: two's complement modulo 2^256 in one word. */
  function PackNum(n: int): (w: seq<Byte>)
    ensures |w| == 32
  {
    ToBytes(n % TWO_256, 32)
  }

  /** Heads written left to right; the next tail starts at `offset`. */
  function Heads(ps: seq<Part>, offset: nat): seq<Byte> {
    if ps == [] then []
    else if ps[0].dyn then PackNum(offset) + Heads(ps[1..], offset + |ps[0].enc|)
    else ps[0].enc + Heads(ps[1..], offset)
  }

  function Tails(ps: seq<Part>): seq<Byte> {
    if ps == [] then [] else (if ps[0].dyn then ps[0].enc else []) + Tails(ps[1..])
  }

  function HeadLen(ps: seq<Part>): nat {
    if ps == [] then 0 else (if ps[0].dyn then 32 else |ps[0].enc|) + HeadLen(ps[1..])
  }

  function Frame(ps: seq<Part>, start: nat): seq<Byte> {
    Heads(ps, start) + Tails(ps)
  }

  /** `head(X(i)) = enc(len(head(X(1)) ... head(X(k)) tail(X(1)) ... tail(X(i-1))))` for dynamic parts. */
  function SpecHead(ps: seq<Part>, i: nat): seq<Byte>
    requires i < |ps|
  {
    if ps[i].dyn then PackNum(HeadLen(ps) + |Tails(ps[..i])|) else ps[i].enc
  }

  function SpecHeads(ps: seq<Part>, i: nat): seq<Byte>
    requires i <= |ps|
    decreases |ps| - i
  {
    if i == |ps| then [] else SpecHead(ps, i) + SpecHeads(ps, i + 1)
  }

  lemma Assoc(a: seq<Byte>, b: seq<Byte>, c: seq<Byte>)
    ensures (a + b) + c == a + (b + c)
  {
  }

  lemma {:induction false} HeadsSize(ps: seq<Part>, offset: nat)
    ensures |Heads(ps, offset)| == HeadLen(ps)
  {
    if ps != [] {
      HeadsSize(ps[1..], if ps[0].dyn then offset + |ps[0].enc| else offset);
    }
  }

  lemma {:induction false} StaticFrame(ps: seq<Part>, o1: nat, o2: nat)
    requires forall i | 0 <= i < |ps| :: !ps[i].dyn
    ensures Heads(ps, o1) == Heads(ps, o2) && Tails(ps) == []
  {
    if ps != [] {
      StaticFrame(ps[1..], o1, o2);
    }
  }

  lemma {:induction false} TailsSnoc(ps: seq<Part>, i: nat)
    requires i < |ps|
    ensures Tails(ps[..i + 1]) == Tails(ps[..i]) + (if ps[i].dyn then ps[i].enc else [])
  {
    if i == 0 {
      assert ps[..1][1..] == [];
    } else {
      TailsSnoc(ps[1..], i - 1);
      assert ps[..i + 1][1..] == ps[1..][..i] && ps[..i][1..] == ps[1..][..i - 1];
      Assoc(if ps[0].dyn then ps[0].enc else [], Tails(ps[1..][..i - 1]), if ps[i].dyn then ps[i].enc else []);
    }
  }

  lemma Step(ps: seq<Part>, i: nat, offset: nat)
    requires i < |ps|
    ensures Heads(ps[i..], offset)
         == if ps[i].dyn then PackNum(offset) + Heads(ps[i + 1..], offset + |ps[i].enc|)
            else ps[i].enc + Heads(ps[i + 1..], offset)
    ensures Tails(ps[i..]) == (if ps[i].dyn then ps[i].enc else []) + Tails(ps[i + 1..])
  {
    assert ps[i..][1..] == ps[i + 1..];
  }

  lemma {:induction false} HeadsMatchSpec(ps: seq<Part>, i: nat, offset: nat)
    requires i <= |ps| && offset == HeadLen(ps) + |Tails(ps[..i])|
    ensures Heads(ps[i..], offset) == SpecHeads(ps, i)
    decreases |ps| - i
  {
    if i < |ps| {
      Step(ps, i, offset);
      TailsSnoc(ps, i);
      HeadsMatchSpec(ps, i + 1, if ps[i].dyn then offset + |ps[i].enc| else offset);
    }
  }

  /** The running offset produces `enc(X) = head(X(1)) ... head(X(k)) tail(X(1)) ... tail(X(k))`. */
  lemma FrameMatchesSpec(ps: seq<Part>)
    ensures Frame(ps, HeadLen(ps)) == SpecHeads(ps, 0) + Tails(ps)
  {
    assert ps[0..] == ps && ps[..0] == [];
    HeadsMatchSpec(ps, 0, HeadLen(ps));
  }

  /** Whole words, laid out in a frame, are whole words. */
  lemma {:induction false} PartsWhole(ps: seq<Part>, start: nat)
    requires forall i | 0 <= i < |ps| :: |ps[i].enc| % 32 == 0
    ensures |Heads(ps, start)| % 32 == 0 && |Tails(ps)| % 32 == 0
  {
    if ps != [] {
      var next := start + |TailOf(ps[0])|;
      Cons(ps, start);
      PartsWhole(ps[1..], next);
      SumWhole(|HeadOf(ps[0], start)|, |Heads(ps[1..], next)|);
      SumWhole(|TailOf(ps[0])|, |Tails(ps[1..])|);
    }
  }

  lemma SumWhole(a: nat, b: nat)
    requires a % 32 == 0 && b % 32 == 0
    ensures (a + b) % 32 == 0
  {
  }

  /** What a packing loop has written for `ps`: the heads behind `prefix`, the tails, and the next offset. */
  ghost predicate Written(prefix: seq<Byte>, ps: seq<Part>, start: nat, ret: seq<Byte>, tail: seq<Byte>, offset: nat) {
    && ret == prefix + Heads(ps, start)
    && tail == Tails(ps)
    && offset == start + |Tails(ps)|
  }

  function HeadOf(p: Part, offset: nat): seq<Byte> {
    if p.dyn then PackNum(offset) else p.enc
  }

  function TailOf(p: Part): seq<Byte> {
    if p.dyn then p.enc else []
  }

  /** Heads and tails from their first part on. */
  lemma Cons(ps: seq<Part>, offset: nat)
    requires ps != []
    ensures Heads(ps, offset) == HeadOf(ps[0], offset) + Heads(ps[1..], offset + |TailOf(ps[0])|)
    ensures Tails(ps) == TailOf(ps[0]) + Tails(ps[1..])
  {
  }

  lemma One(p: Part, offset: nat)
    ensures Heads([p], offset) == HeadOf(p, offset) && Tails([p]) == TailOf(p)
  {
    Cons([p], offset);
    assert HeadOf(p, offset) + [] == HeadOf(p, offset) && TailOf(p) + [] == TailOf(p);
  }

  lemma {:induction false} Snoc(ps: seq<Part>, start: nat, p: Part)
    ensures Heads(ps + [p], start) == Heads(ps, start) + HeadOf(p, start + |Tails(ps)|)
    ensures Tails(ps + [p]) == Tails(ps) + TailOf(p)
  {
    if ps == [] {
      One(p, start);
      assert ps + [p] == [p];
    } else {
      var rest, next := ps[1..], start + |TailOf(ps[0])|;
      assert (ps + [p])[1..] == rest + [p] && (ps + [p])[0] == ps[0];
      Cons(ps, start);
      Cons(ps + [p], start);
      Snoc(rest, next, p);
      Assoc(HeadOf(ps[0], start), Heads(rest, next), HeadOf(p, start + |Tails(ps)|));
      Assoc(TailOf(ps[0]), Tails(rest), TailOf(p));
    }
  }

  lemma WrittenSnoc(prefix: seq<Byte>, ps: seq<Part>, start: nat, ret: seq<Byte>, tail: seq<Byte>, offset: nat, p: Part)
    requires Written(prefix, ps, start, ret, tail, offset)
    ensures if p.dyn then Written(prefix, ps + [p], start, ret + PackNum(offset), tail + p.enc, offset + |p.enc|)
            else Written(prefix, ps + [p], start, ret + p.enc, tail, offset)
  {
    Snoc(ps, start, p);
    Assoc(prefix, Heads(ps, start), if p.dyn then PackNum(offset) else p.enc);
  }

  /** `s` stands at `pos` of `out`. */
  predicate At(out: seq<Byte>, pos: nat, s: seq<Byte>) {
    pos + |s| <= |out| && out[pos..pos + |s|] == s
  }

  lemma AtSplit(out: seq<Byte>, pos: nat, a: seq<Byte>, b: seq<Byte>)
    requires At(out, pos, a + b)
    ensures At(out, pos, a) && At(out, pos + |a|, b)
  {
    assert out[pos..pos + |a|] == (a + b)[..|a|] == a;
    assert out[pos + |a|..pos + |a| + |b|] == (a + b)[|a|..] == b;
  }

  lemma AtDrop(out: seq<Byte>, begin: nat, pos: nat, s: seq<Byte>)
    requires At(out, begin + pos, s)
    ensures At(out[begin..], pos, s)
  {
    assert out[begin..][pos..pos + |s|] == out[begin + pos..begin + pos + |s|];
  }

  /** A component in a frame: a static one in place at `pos`, a dynamic one behind the offset `off` held at `pos`. */
  predicate Placed(dyn: bool, e: seq<Byte>, out: seq<Byte>, pos: nat, off: nat) {
    if dyn then At(out, pos, PackNum(off)) && At(out, off, e) else At(out, pos, e)
  }

  /** The first part of a frame is placed, and the rest of the frame follows it. */
  lemma Unplace(ps: seq<Part>, out: seq<Byte>, pos: nat, off: nat)
    requires ps != [] && At(out, pos, Heads(ps, off)) && At(out, off, Tails(ps))
    ensures Placed(ps[0].dyn, ps[0].enc, out, pos, off)
    ensures var off' := if ps[0].dyn then off + |ps[0].enc| else off;
            && At(out, pos + (if ps[0].dyn then 32 else |ps[0].enc|), Heads(ps[1..], off'))
            && At(out, off', Tails(ps[1..]))
  {
    var p := ps[0];
    AtSplit(out, pos, if p.dyn then PackNum(off) else p.enc, Heads(ps[1..], if p.dyn then off + |p.enc| else off));
    AtSplit(out, off, if p.dyn then p.enc else [], Tails(ps[1..]));
  }
}
