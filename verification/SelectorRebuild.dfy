/** The types that `NewType` rebuilds from a parsed selector are the printed ones, and so is the signature. */
module SelectorRebuild {
  import opened Wrappers
  import opened AbiTypes
  import opened Bytes
  import opened SelectorParse
  import opened SelectorTypes
  import opened SelectorRoundTrip

  lemma {:induction false} CountConcat(a: string, b: string, c: char)
    ensures Count(a + b, c) == Count(a, c) + Count(b, c)
  {
    if b == "" {
      assert a + b == a;
    } else {
      CountConcat(a, b[..|b| - 1], c);
      assert (a + b)[..|a + b| - 1] == a + b[..|b| - 1];
    }
  }

  lemma {:induction false} CountNone(s: string, c: char)
    requires c !in s
    ensures Count(s, c) == 0
  {
    if s != "" {
      CountNone(s[..|s| - 1], c);
    }
  }

  lemma {:induction false} CountCell(ds: string)
    requires Digits(ds)
    ensures Count(Cell(ds), '[') == 1 && Count(Cell(ds), ']') == 1
  {
    CountConcat("[" + ds, "]", '[');
    CountConcat("[" + ds, "]", ']');
    CountConcat("[", ds, '[');
    CountConcat("[", ds, ']');
    CountNone(ds, '[');
    CountNone(ds, ']');
    assert Count("[", '[') == 1 && Count("]", '[') == 0 && Count("[", ']') == 0 && Count("]", ']') == 1;
  }

  predicate Balanced(s: string) {
    Count(s, '[') == Count(s, ']')
  }

  /** `NewType` takes the last brackets off first. */
  lemma {:induction false} CellType(text: string, ds: string, components: seq<Marshal>)
    requires Digits(ds) && Balanced(text)
    ensures Balanced(text + Cell(ds))
    ensures var inner := TypeOf(text, components);
            TypeOf(text + Cell(ds), components) == if inner.Err? then Err(InvalidType) else Bracketed(inner.value, Cell(ds))
  {
    var t := text + Cell(ds);
    CountConcat(text, Cell(ds), '[');
    CountConcat(text, Cell(ds), ']');
    CountCell(ds);
    assert t[|text|] == '[' && forall k | |text| < k < |t| :: t[k] != '[';
    assert LastIndex(t, '[') == |text|;
    assert t[..|text|] == text && t[|text|..] == Cell(ds);
  }

  /** The one run of digits between two brackets. */
  lemma {:induction false} CellRuns(ds: string)
    requires Digits(ds)
    ensures DigitRuns(Cell(ds), 0) == if ds == "" then [] else [ds]
  {
    var s := Cell(ds);
    assert forall j | 1 <= j < 1 + |ds| :: s[j] == ds[j - 1];
    assert s[1 + |ds|] == ']';
    DigitEndIs(s, 1, 1 + |ds|);
    assert DigitRuns(s, |s|) == [];
    assert DigitRuns(s, 1 + |ds|) == [];
    assert s[1..1 + |ds|] == ds;
  }

  /** A word and digits, as the type regexp splits them. */
  lemma {:induction false} WordSplit(w: string, ds: string)
    requires w != "" && (forall i | 0 <= i < |w| :: IsAlpha(w[i])) && Digits(ds)
    ensures FirstLetter(w + ds, 0) == 0 && LetterEnd(w + ds, 0) == |w| && DigitEnd(w + ds, |w|) == |w + ds|
    ensures Count(w + ds, '[') == 0 && Count(w + ds, ']') == 0
  {
    LetterEndIs(w + ds, 0, |w|);
    DigitEndIs(w + ds, |w|, |w + ds|);
    CountNone(w + ds, '[');
    CountNone(w + ds, ']');
  }

  lemma {:induction false} WordType(w: string, ds: string, components: seq<Marshal>)
    requires w != "" && w != "tuple" && (forall i | 0 <= i < |w| :: IsAlpha(w[i])) && Digits(ds)
    ensures var b := Basic(w, ds, false);
            Balanced(w + ds) && TypeOf(w + ds, components) == if b.Err? then Err(InvalidType) else Ok((b.value, w + ds))
  {
    WordSplit(w, ds);
    var t := w + ds;
    assert t[0..|w|] == w && t[|w|..|t|] == ds;
  }

  lemma {:induction false} BasicType(t: Ty, components: seq<Marshal>)
    requires !t.SliceT? && !t.ArrayT? && !t.TupleT? && Supported(t) && Sized(t)
    ensures Balanced(Print(t)) && TypeOf(Print(t), components) == Ok((t, Print(t)))
  {
    WordType(Word(t), SizeText(t), components);
    if t.UintT? || t.IntT? {
      ValueDec(t.bits);
    } else if t.FixedBytesT? {
      ValueDec(t.len);
    }
  }

  function SizeText(t: Ty): (ds: string)
    requires !t.SliceT? && !t.ArrayT? && !t.TupleT?
    ensures Digits(ds) && Print(t) == Word(t) + ds
  {
    match t
    case UintT(bits) => Dec(bits)
    case IntT(bits) => Dec(bits)
    case FixedBytesT(len) => Dec(len)
    case _ => ""
  }

  function Word(t: Ty): (w: string)
    requires !t.SliceT? && !t.ArrayT? && !t.TupleT?
    ensures w != "" && w != "tuple" && forall i | 0 <= i < |w| :: IsAlpha(w[i])
  {
    match t
    case UintT(_) => "uint"
    case IntT(_) => "int"
    case BoolT => "bool"
    case AddressT => "address"
    case FunctionT => "function"
    case StringT => "string"
    case _ => "bytes"
  }

  /** The size that goes with the word of an elementary type. */
  predicate SizeFits(t: Ty, digits: string)
    requires Digits(digits)
  {
    match t
    case UintT(bits) => digits != "" && bits == Value(digits)
    case IntT(bits) => digits != "" && bits == Value(digits)
    case FixedBytesT(len) => len == Value(digits)
    case BytesT => Value(digits) == 0
    case _ => true
  }

  /**
   Which elementary type a word with digits names: integers need a size, `bytes` takes one up to 32, the other words take
   any size and ignore it.
   */
  lemma {:induction false} BasicExactly(word: string, digits: string, fraction: bool, t: Ty)
    requires Digits(digits)
    ensures Basic(word, digits, fraction) == Ok(t) <==>
            && !t.SliceT? && !t.ArrayT? && !t.TupleT? && Supported(t) && word == Word(t) && SizeFits(t, digits)
            && (digits == "" || (!fraction && Value(digits) < TWO_63))
  {
  }

  /** Whatever the string, a type that `NewType` yields is supported, its sizes are Go ints, and its text is the string. */
  lemma {:induction false} NewTypeSound(t: string, components: seq<Marshal>)
    requires TypeOf(t, components).Ok?
    ensures var (ty, kind) := TypeOf(t, components).value; Supported(ty) && Sized(ty) && (Plain(ty) ==> kind == t)
    decreases components, |t|
  {
    var ty := TypeOf(t, components).value.0;
    if Count(t, '[') != 0 {
      var i := LastIndex(t, '[');
      NewTypeSound(t[..i], components);
      assert t == t[..i] + t[i..];
    } else if ty.TupleT? {
      var ts := TypesOf(components).value.0;
      forall k | 0 <= k < |ts|
        ensures Supported(ts[k]) && Sized(ts[k])
      {
        NewTypeSound(components[k].text, components[k].components);
      }
    } else {
      var p := FirstLetter(t, 0);
      var q := LetterEnd(t, p);
      var d := DigitEnd(t, q);
      DigitEndMeans(t, q);
      BasicExactly(t[p..q], t[q..d], HasFraction(t, d), ty);
    }
  }

  /** An elementary type under any brackets is rebuilt from its text. */
  lemma {:induction false} PlainType(t: Ty, components: seq<Marshal>)
    requires Plain(t) && Supported(t) && Sized(t)
    ensures Balanced(Print(t)) && TypeOf(Print(t), components) == Ok((t, Print(t)))
  {
    if t.SliceT? || t.ArrayT? {
      PlainType(t.elem, components);
      CellType(Print(t.elem), Size(t), components);
      CellRuns(Size(t));
      if t.ArrayT? {
        ValueDec(t.size);
      }
    } else {
      BasicType(t, components);
    }
  }

  lemma {:induction false} TupleText(text: string, ms: seq<Marshal>, ts: seq<Ty>)
    requires text == "tuple" && TypesOf(ms) == Ok((ts, Prints(ts)))
    ensures Balanced(text) && TypeOf(text, ms) == Ok((TupleT(ts), Print(TupleT(ts))))
  {
    WordSplit(text, "");
    assert text + "" == text && text[0..|text|] == text;
  }

  lemma {:induction false} TupleSliceText(text: string, ms: seq<Marshal>, ts: seq<Ty>)
    requires text == "tuple[]" && TypesOf(ms) == Ok((ts, Prints(ts)))
    ensures TypeOf(text, ms) == Ok((SliceT(TupleT(ts)), Print(SliceT(TupleT(ts)))))
  {
    var inner := text[..5];
    TupleText(inner, ms, ts);
    CellType(inner, "", ms);
    CellRuns("");
    assert text == inner + Cell("");
  }

  /** No argument is mistaken for the mark of a tuple slice. */
  lemma {:induction false} NotTheMark(t: Ty)
    requires Printable(t)
    ensures Assemble(Shape(t)).text != "[]"
  {
    if !t.TupleT? && !(t.SliceT? && t.elem.TupleT?) {
      ElementaryIs(t, ",");
    }
  }

  lemma {:induction false} TupleMarshal(ts: seq<Ty>)
    requires AllPrintable(ts) && ts != []
    ensures Assemble(Items(Shapes(ts))) == Marshal("tuple", AssembleAll(Shapes(ts)))
  {
    NotTheMark(ts[|ts| - 1]);
    ShapeAt(ts, |ts| - 1);
  }

  lemma {:induction false} TupleSliceMarshal(ps: seq<Piece>)
    ensures Assemble(Items(ps + [Str("[]")])) == Marshal("tuple[]", AssembleAll(ps))
  {
    var sub := AssembleAll(ps + [Str("[]")]);
    assert sub[|sub| - 1] == Assemble(Str("[]"));
    assert sub[..|sub| - 1] == AssembleAll(ps);
  }

  lemma {:induction false} TypeRebuilt(t: Ty)
    requires Printable(t) && Supported(t) && Sized(t)
    ensures Rebuilds(Assemble(Shape(t)), t)
    decreases t
  {
    if t.TupleT? {
      TypesRebuilt(t.elems);
      TupleRebuilt(t.elems);
    } else if t.SliceT? && t.elem.TupleT? {
      TypesRebuilt(t.elem.elems);
      TupleRebuilt(t.elem.elems);
    } else {
      PlainType(t, []);
    }
  }

  /** A tuple, and a slice of it, from its fields. */
  lemma {:induction false} TupleRebuilt(ts: seq<Ty>)
    requires AllPrintable(ts) && ts != [] && TypesOf(AssembleAll(Shapes(ts))) == Ok((ts, Prints(ts)))
    ensures Rebuilds(Assemble(Items(Shapes(ts))), TupleT(ts))
    ensures Rebuilds(Assemble(Items(Shapes(ts) + [Str("[]")])), SliceT(TupleT(ts)))
  {
    TupleMarshal(ts);
    TupleSliceMarshal(Shapes(ts));
    var ms := AssembleAll(Shapes(ts));
    TupleText(Assemble(Items(Shapes(ts))).text, ms, ts);
    TupleSliceText(Assemble(Items(Shapes(ts) + [Str("[]")])).text, ms, ts);
  }

  ghost predicate Rebuilds(m: Marshal, t: Ty) {
    TypeOf(m.text, m.components) == Ok((t, Print(t)))
  }

  lemma {:induction false} ShapeAt(ts: seq<Ty>, i: nat)
    requires AllPrintable(ts) && i < |ts|
    ensures Shapes(ts)[i] == Shape(ts[i])
  {
    if i > 0 {
      ShapeAt(ts[1..], i - 1);
    }
  }

  lemma {:induction false} TypesRebuilt(ts: seq<Ty>)
    requires AllPrintable(ts) && AllSupported(ts) && forall i | 0 <= i < |ts| :: Sized(ts[i])
    ensures TypesOf(AssembleAll(Shapes(ts))) == Ok((ts, Prints(ts)))
    decreases ts
  {
    if ts != [] {
      TypeRebuilt(ts[0]);
      TypesRebuilt(ts[1..]);
      var ms := AssembleAll(Shapes(ts));
      assert ms[1..] == AssembleAll(Shapes(ts[1..]));
      assert [ts[0]] + ts[1..] == ts;
    }
  }

  /** A printed list does not start with a closing parenthesis. */
  lemma {:induction false} FirstChar(ts: seq<Ty>)
    requires ts != []
    ensures Joined(Prints(ts)) != "" && Joined(Prints(ts))[0] != ')'
  {
    PrintSplit(ts[0]);
    CoreBasic(ts[0]);
    if !Core(ts[0]).TupleT? {
      BasicToken(Core(ts[0]));
    }
    JoinedCut(ts, "");
    assert Joined(Prints(ts)) + "" == Joined(Prints(ts));
  }

  lemma {:induction false} Parenthesised(name: string, j: string)
    ensures name + "(" + j + ")" == name + ("(" + j + ")")
    ensures ("(" + j + ")")[1..] == j + ")"
  {
  }

  /** The argument list of a signature. */
  lemma {:induction false} ArgumentsRead(ts: seq<Ty>)
    requires ts != []
    ensures Composite("(" + Joined(Prints(ts)) + ")") == if AllPrintable(ts) then Ok((Shapes(ts), "")) else Err(Syntax)
  {
    Parenthesised("", Joined(Prints(ts)));
    if AllPrintable(ts) {
      ListIs(ts, ")");
    } else {
      ListFails(ts, ")");
    }
  }

  /** A name and its argument list. */
  lemma {:induction false} NameRead(name: string, j: string)
    requires IsToken(name, true) && (j == "" || j[0] != ')')
    ensures var c := Composite("(" + j + ")");
            Select(name + "(" + j + ")") ==
            if j == "" then Ok(Selector(name, []))
            else if c.Err? then Err(c.error) else if c.value.1 != "" then Err(Syntax) else Ok(Selector(name, AssembleAll(c.value.0)))
  {
    var tail := "(" + j + ")";
    Parenthesised(name, j);
    TokenIs(name, tail, true);
    assert tail[1] == if j == "" then ')' else j[0];
  }

  /**
   The signature printed for a method is read back, types and text unchanged, exactly when no argument holds an empty
   tuple or a tuple under brackets other than one empty pair; every other signature is refused.
   */
  lemma {:induction false} SignatureRoundTrip(name: string, ts: seq<Ty>)
    requires IsToken(name, true) && AllSupported(ts) && forall i | 0 <= i < |ts| :: Sized(ts[i])
    ensures var r := Select(Signature(name, Prints(ts)));
            if !AllPrintable(ts) then r == Err(Syntax)
            else r.Ok? && r.value.name == name && TypesOf(r.value.inputs) == Ok((ts, Prints(ts)))
  {
    if ts != [] {
      FirstChar(ts);
      ArgumentsRead(ts);
    }
    NameRead(name, Joined(Prints(ts)));
    if AllPrintable(ts) {
      TypesRebuilt(ts);
    }
  }

  /** Arguments are separated by commas, in the text that is hashed for the method identifier. */
  lemma SignatureText()
    ensures Signature("setApprovalForAll", Prints([AddressT, BoolT])) == "setApprovalForAll(address,bool)"
  {
    var ts := [AddressT, BoolT];
    assert ts[1..] == [BoolT] && Prints(ts[1..]) == ["bool"];
    assert Prints(ts) == ["address", "bool"] && Prints(ts)[1..] == ["bool"];
    assert Joined(Prints(ts)) == "address,bool";
  }

  /** An array of tuples, which Solidity knows, is not read back. */
  lemma TupleArrayRefused()
    ensures Select(Signature("f", Prints([ArrayT(TupleT([BoolT]), 3)]))) == Err(Syntax)
  {
    var ts := [ArrayT(TupleT([BoolT]), 3)];
    assert Core(ts[0].elem).TupleT? && !Printable(ts[0]);
    SignatureRoundTrip("f", ts);
  }

  /** Two methods with the same signature have the same name and the same argument types. */
  lemma {:induction false} SignatureInjective(name: string, ts: seq<Ty>, name': string, ts': seq<Ty>)
    requires IsToken(name, true) && AllSupported(ts) && AllPrintable(ts) && forall i | 0 <= i < |ts| :: Sized(ts[i])
    requires IsToken(name', true) && AllSupported(ts') && AllPrintable(ts') && forall i | 0 <= i < |ts'| :: Sized(ts'[i])
    requires Signature(name, Prints(ts)) == Signature(name', Prints(ts'))
    ensures name == name' && ts == ts'
  {
    SignatureRoundTrip(name, ts);
    SignatureRoundTrip(name', ts');
  }
}
