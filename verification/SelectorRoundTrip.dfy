/** Printing method signatures and reading them back: which trees of types survive, and that those that do are unchanged. */
module SelectorRoundTrip {
  import opened Wrappers
  import opened AbiTypes
  import opened Bytes
  import opened SelectorParse
  import opened SelectorTypes

  predicate Digits(ds: string) {
    forall i | 0 <= i < |ds| :: IsDigit(ds[i])
  }

  /** Decimal digits of a size. */
  function Dec(n: nat): (ds: string)
    ensures ds != "" && Digits(ds)
  {
    if n < 10 then ["0123456789"[n]] else Dec(n / 10) + ["0123456789"[n % 10]]
  }

  lemma {:induction false} ValueDec(n: nat)
    ensures Value(Dec(n)) == n
  {
    var d := ["0123456789"[n % 10]];
    if n < 10 {
      assert Dec(n)[..0] == "";
    } else {
      ValueDec(n / 10);
      assert Dec(n)[..|Dec(n)| - 1] == Dec(n / 10);
    }
  }

  /** The canonical string of a type, as the Contract ABI Specification writes it. */
  function Print(t: Ty): string
    decreases t
  {
    match t
    case UintT(bits) => "uint" + Dec(bits)
    case IntT(bits) => "int" + Dec(bits)
    case BoolT => "bool"
    case AddressT => "address"
    case FixedBytesT(len) => "bytes" + Dec(len)
    case FunctionT => "function"
    case StringT => "string"
    case BytesT => "bytes"
    case SliceT(elem) => Print(elem) + Cell("")
    case ArrayT(elem, size) => Print(elem) + Cell(Dec(size))
    case TupleT(elems) => "(" + Joined(Prints(elems)) + ")"
  }

  function Prints(ts: seq<Ty>): (ps: seq<string>)
    ensures |ps| == |ts|
    decreases ts
  {
    if ts == [] then [] else [Print(ts[0])] + Prints(ts[1..])
  }

  function Cell(ds: string): string {
    "[" + ds + "]"
  }

  /** The type inside all the brackets. */
  function Core(t: Ty): Ty {
    if t.SliceT? || t.ArrayT? then Core(t.elem) else t
  }

  function Cells(t: Ty): string {
    match t
    case SliceT(elem) => Cells(elem) + Cell("")
    case ArrayT(elem, size) => Cells(elem) + Cell(Dec(size))
    case _ => ""
  }

  /** Sizes are Go ints. */
  predicate Sized(t: Ty) {
    match t
    case UintT(bits) => bits < TWO_63
    case IntT(bits) => bits < TWO_63
    case SliceT(elem) => Sized(elem)
    case ArrayT(elem, size) => size < TWO_63 && Sized(elem)
    case TupleT(elems) => forall i | 0 <= i < |elems| :: Sized(elems[i])
    case _ => true
  }

  /** What the parser's grammar covers: tuples have fields, and the only brackets a tuple takes are one `[]`. */
  predicate Printable(t: Ty) {
    match t
    case TupleT(elems) => AllPrintable(elems) && elems != []
    case SliceT(elem) => if elem.TupleT? then Printable(elem) else !Core(elem).TupleT?
    case ArrayT(elem, _) => !Core(elem).TupleT?
    case _ => true
  }

  predicate AllPrintable(ts: seq<Ty>) {
    forall i | 0 <= i < |ts| :: Printable(ts[i])
  }

  predicate Plain(t: Ty) {
    !Core(t).TupleT?
  }

  lemma {:induction false} Assoc(a: string, b: string, c: string)
    ensures (a + b) + c == a + (b + c)
  {
  }

  // Token runs.

  lemma {:induction false} TokenEndIs(s: string, isIdent: bool, i: nat, k: nat)
    requires i <= k <= |s| && (forall j | i <= j < k :: InToken(s[j], isIdent)) && (k == |s| || !InToken(s[k], isIdent))
    ensures TokenEnd(s, isIdent, i) == k
    decreases k - i
  {
    if i < k {
      TokenEndIs(s, isIdent, i + 1, k);
    }
  }

  lemma {:induction false} DigitEndIs(s: string, i: nat, k: nat)
    requires i <= k <= |s| && (forall j | i <= j < k :: IsDigit(s[j])) && (k == |s| || !IsDigit(s[k]))
    ensures DigitEnd(s, i) == k
    decreases k - i
  {
    if i < k {
      DigitEndIs(s, i + 1, k);
    }
  }

  lemma {:induction false} LetterEndIs(s: string, i: nat, k: nat)
    requires i <= k <= |s| && (forall j | i <= j < k :: IsAlpha(s[j])) && (k == |s| || !IsAlpha(s[k]))
    ensures LetterEnd(s, i) == k
    decreases k - i
  {
    if i < k {
      LetterEndIs(s, i + 1, k);
    }
  }

  /** A token and what does not continue it. */
  ghost predicate IsToken(p: string, isIdent: bool) {
    p != "" && StartsToken(p[0], isIdent) && forall j | 0 <= j < |p| :: InToken(p[j], isIdent)
  }

  lemma {:induction false} TokenIs(p: string, rest: string, isIdent: bool)
    requires IsToken(p, isIdent) && (rest == "" || !InToken(rest[0], isIdent))
    ensures Token(p + rest, isIdent) == Ok((p, rest))
  {
    var s := p + rest;
    TokenEndIs(s, isIdent, 1, |p|);
    assert s[..|p|] == p && s[|p|..] == rest;
  }

  // Brackets.

  lemma {:induction false} OneCell(ds: string, rest: string)
    requires Digits(ds)
    ensures Brackets(Cell(ds) + rest) == Further(|ds| + 2, Brackets(rest))
  {
    var s := Cell(ds) + rest;
    assert forall j | 1 <= j < 1 + |ds| :: s[j] == ds[j - 1];
    assert s[1 + |ds|] == ']';
    DigitEndIs(s, 1, 1 + |ds|);
    assert s[|ds| + 2..] == rest;
  }

  /** `n` more bytes of brackets than `b`, if those close. */
  function Further(n: nat, b: Option<nat>): Option<nat> {
    if b.None? then None else Some(n + b.value)
  }

  /** What the last brackets of a type hold. */
  function Size(t: Ty): (ds: string)
    requires t.SliceT? || t.ArrayT?
    ensures Digits(ds) && Cells(t) == Cells(t.elem) + Cell(ds) && Print(t) == Print(t.elem) + Cell(ds)
  {
    if t.SliceT? then "" else Dec(t.size)
  }

  lemma {:induction false} BracketsCells(t: Ty, rest: string)
    ensures Brackets(Cells(t) + rest) == Further(|Cells(t)|, Brackets(rest))
  {
    if t.SliceT? || t.ArrayT? {
      BracketsCells(t.elem, Cell(Size(t)) + rest);
      BracketsSnoc(Cells(t.elem), Size(t), rest);
    } else {
      assert Cells(t) + rest == rest;
    }
  }

  lemma {:induction false} BracketsSnoc(inner: string, ds: string, rest: string)
    requires Digits(ds) && Brackets(inner + (Cell(ds) + rest)) == Further(|inner|, Brackets(Cell(ds) + rest))
    ensures Brackets(inner + Cell(ds) + rest) == Further(|inner + Cell(ds)|, Brackets(rest))
  {
    OneCell(ds, rest);
    Assoc(inner, Cell(ds), rest);
  }

  lemma {:induction false} PrintSplit(t: Ty)
    ensures Print(t) == Print(Core(t)) + Cells(t)
  {
    if t.SliceT? || t.ArrayT? {
      PrintSplit(t.elem);
    }
  }

  /** Brackets are none, or open with a bracket followed by its close or a digit. */
  lemma {:induction false} CellsStart(t: Ty)
    ensures Cells(t) == "" || Stuck(Cells(t))
    ensures Cells(t) == "" <==> !t.SliceT? && !t.ArrayT?
  {
    if t.SliceT? || t.ArrayT? {
      CellsStart(t.elem);
    }
  }

  /** Where no type can start after the next byte. */
  predicate Stuck(s: string) {
    |s| >= 2 && s[0] == '[' && (s[1] == ']' || IsDigit(s[1]))
  }

  /** What may follow a type in a list. */
  predicate Ends(s: string) {
    s != "" && (s[0] == ',' || s[0] == ')')
  }

  lemma {:induction false} BasicToken(t: Ty)
    requires !t.SliceT? && !t.ArrayT? && !t.TupleT?
    ensures IsToken(Print(t), false)
  {
  }

  lemma {:induction false} CoreBasic(t: Ty)
    ensures !Core(t).SliceT? && !Core(t).ArrayT?
  {
    if t.SliceT? || t.ArrayT? {
      CoreBasic(t.elem);
    }
  }

  /** An elementary type with its brackets is read back as its text. */
  lemma {:induction false} ElementaryIs(t: Ty, rest: string)
    requires Plain(t) && Ends(rest)
    ensures Print(t) != "" && IsAlpha(Print(t)[0]) && Elementary(Print(t) + rest) == Ok((Print(t), rest))
  {
    var p, c := Print(Core(t)), Cells(t);
    CoreBasic(t);
    BasicToken(Core(t));
    PrintSplit(t);
    CellsStart(t);
    TokenIs(p, c + rest, false);
    Assoc(p, c, rest);
    BracketsCells(t, rest);
    assert WithBrackets(p, c + rest) == Ok((p + c, rest)) by {
      assert (c + rest)[..|c|] == c && (c + rest)[|c|..] == rest;
    }
  }

  // Reading back what the grammar covers.

  /** What the parser makes of a printed type. */
  function Shape(t: Ty): Piece
    requires Printable(t)
    decreases t
  {
    if t.TupleT? then Items(Shapes(t.elems))
    else if t.SliceT? && t.elem.TupleT? then
      assert Printable(t.elem);
      Items(Shapes(t.elem.elems) + [Str("[]")])
    else Str(Print(t))
  }

  function Shapes(ts: seq<Ty>): (ps: seq<Piece>)
    requires AllPrintable(ts)
    ensures |ps| == |ts|
    decreases ts
  {
    if ts == [] then [] else [Shape(ts[0])] + Shapes(ts[1..])
  }

  /** A parenthesised list followed by `rest`, once the list has been read. */
  lemma {:induction false} CompositeOf(j: string, rest: string, ps: seq<Piece>)
    requires TypeList(j + (")" + rest)) == Ok((ps, ")" + rest))
    ensures var pair := |rest| >= 2 && rest[0] == '[' && rest[1] == ']';
            TypePiece("(" + j + ")" + rest) == if pair then Ok((Items(ps + [Str("[]")]), rest[2..])) else Ok((Items(ps), rest))
  {
    Opened(j, rest);
    assert |rest| >= 2 ==> (")" + rest)[3..] == rest[2..];
    assert (")" + rest)[1..] == rest;
  }

  /** What stands inside an opening parenthesis. */
  lemma {:induction false} Opened(j: string, rest: string)
    ensures "(" + j + ")" + rest == "(" + (j + (")" + rest)) && ("(" + j + ")" + rest)[1..] == j + (")" + rest)
  {
    Assoc("(" + j, ")", rest);
    Assoc("(", j, ")" + rest);
    assert ("(" + (j + (")" + rest)))[1..] == j + (")" + rest);
  }

  /** The text of a list, cut after its first type. */
  lemma {:induction false} JoinedCut(ts: seq<Ty>, rest: string)
    requires ts != []
    ensures Joined(Prints(ts)) + rest == Print(ts[0]) + After(ts, rest)
  {
    assert Prints(ts)[1..] == Prints(ts[1..]);
    if |ts| > 1 {
      var j := Joined(Prints(ts[1..]));
      Assoc(Print(ts[0]) + ",", j, rest);
      Assoc(Print(ts[0]), ",", j + rest);
    }
  }

  function After(ts: seq<Ty>, rest: string): string
    requires ts != []
  {
    if |ts| == 1 then rest else "," + (Joined(Prints(ts[1..])) + rest)
  }

  lemma {:induction false} TypeIs(t: Ty, rest: string)
    requires Printable(t) && Ends(rest)
    ensures TypePiece(Print(t) + rest) == Ok((Shape(t), rest))
    decreases t
  {
    if t.TupleT? {
      ListIs(t.elems, ")" + rest);
      CompositeOf(Joined(Prints(t.elems)), rest, Shapes(t.elems));
    } else if t.SliceT? && t.elem.TupleT? {
      var ts := t.elem.elems;
      ListIs(ts, ")" + (Cell("") + rest));
      CompositeOf(Joined(Prints(ts)), Cell("") + rest, Shapes(ts));
      Assoc(Print(t.elem), Cell(""), rest);
      assert (Cell("") + rest)[2..] == rest;
    } else {
      ElementaryIs(t, rest);
    }
  }

  lemma {:induction false} ListIs(ts: seq<Ty>, rest: string)
    requires ts != [] && AllPrintable(ts) && rest != "" && rest[0] == ')'
    ensures TypeList(Joined(Prints(ts)) + rest) == Ok((Shapes(ts), rest))
    decreases ts
  {
    JoinedCut(ts, rest);
    TypeIs(ts[0], After(ts, rest));
    if |ts| > 1 {
      ListIs(ts[1..], rest);
      assert After(ts, rest)[1..] == Joined(Prints(ts[1..])) + rest;
    } else {
      assert Shapes(ts) == [Shape(ts[0])];
    }
  }

  // Failing on the rest.

  lemma {:induction false} StuckFails(ps: seq<Piece>, s: string)
    requires Stuck(s)
    ensures WithList(ps, s).Err?
  {
    assert Elementary(s[1..]).Err?;
    assert TypePiece(s[1..]).Err?;
  }

  lemma {:induction false} CellsTwo(t: Ty)
    requires |Cells(t)| >= 2 && Cells(t)[0] == '[' && Cells(t)[1] == ']'
    ensures if |Cells(t)| == 2 then t.SliceT? && Cells(t.elem) == "" else Stuck(Cells(t)[2..])
  {
    CellsStart(t);
    var e, c := t.elem, Cell(Size(t));
    CellsStart(e);
    if Cells(e) != "" {
      CellsTwo(e);
      assert (Cells(e) + c)[2..] == Cells(e)[2..] + c;
    } else {
      assert Cells(t) == c;
    }
  }

  lemma {:induction false} TypeFails(t: Ty, rest: string)
    requires !Printable(t) && Ends(rest)
    ensures var r := TypePiece(Print(t) + rest); r.Err? || Stuck(r.value.1)
    decreases t, 1
  {
    CoreSmaller(t);
    var ts, c := Core(t).elems, Cells(t);
    var j := Joined(Prints(ts));
    PrintSplit(t);
    Assoc(Print(Core(t)), c, rest);
    if ts == [] {
      assert j + (")" + (c + rest)) == ")" + (c + rest);
      FieldsFail(j, c + rest);
    } else if !AllPrintable(ts) {
      ListFails(ts, ")" + (c + rest));
      FieldsFail(j, c + rest);
    } else {
      ListIs(ts, ")" + (c + rest));
      CompositeOf(j, c + rest, Shapes(ts));
      BracketsStick(t, rest);
    }
  }

  /** Brackets on a tuple, other than one empty pair, stick out after the pair the parser takes. */
  lemma {:induction false} BracketsStick(t: Ty, rest: string)
    requires !Printable(t) && Core(t).TupleT? && Printable(Core(t))
    ensures var s := Cells(t) + rest;
            if |s| >= 2 && s[0] == '[' && s[1] == ']' then Stuck(s[2..]) else Stuck(s)
  {
    var c := Cells(t);
    CellsStart(t);
    if c[1] == ']' {
      CellsTwo(t);
      assert (c + rest)[2..] == c[2..] + rest;
    }
  }

  /** Inside the brackets of a type that is not covered is a tuple. */
  lemma {:induction false} CoreSmaller(t: Ty)
    ensures !Printable(t) ==> Core(t).TupleT?
    ensures Core(t) == t || Core(t) < t
  {
    if t.SliceT? || t.ArrayT? {
      CoreSmaller(t.elem);
    }
  }

  /** A tuple whose fields are not covered is not read, whatever follows. */
  lemma {:induction false} FieldsFail(j: string, rest: string)
    requires TypeList(j + (")" + rest)).Err?
    ensures TypePiece("(" + j + ")" + rest).Err?
  {
    Opened(j, rest);
  }

  lemma {:induction false} ListFails(ts: seq<Ty>, rest: string)
    requires !AllPrintable(ts) && rest != "" && rest[0] == ')'
    ensures TypeList(Joined(Prints(ts)) + rest).Err?
    decreases ts, 0
  {
    JoinedCut(ts, rest);
    if Printable(ts[0]) {
      TypeIs(ts[0], After(ts, rest));
      ListFails(ts[1..], rest);
      assert After(ts, rest)[1..] == Joined(Prints(ts[1..])) + rest;
    } else {
      TypeFails(ts[0], After(ts, rest));
      var r := TypePiece(Print(ts[0]) + After(ts, rest));
      if r.Ok? {
        StuckFails([r.value.0], r.value.1);
      }
    }
  }
}
