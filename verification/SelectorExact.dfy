/** Exactly which strings the selector parser accepts, and as what: a grammar of trees, against the parser over bytes. */
module SelectorExact {
  import opened Wrappers
  import opened SelectorParse
  import opened SelectorTypes
  import opened SelectorRoundTrip

  /** `$` and `_` belong to names only, and a digit starts neither a name nor a type. */
  lemma Alphabet()
    ensures StartsToken('$', true) && StartsToken('_', true) && !InToken('$', false) && !InToken('_', false)
    ensures InToken('0', false) && InToken('9', true) && !StartsToken('0', true) && !StartsToken('9', false)
    ensures forall c | c in "()[], -." :: !InToken(c, true)
  {
  }

  // Elementary types.

  /** Brackets that close at `d`, with digits or nothing in them. */
  ghost predicate FirstCell(s: string, d: int) {
    0 < d < |s| && s[0] == '[' && Digits(s[1..d]) && s[d] == ']'
  }

  /** Pairs of brackets one after the other. */
  ghost predicate CellsText(s: string) {
    s == "" || exists d :: FirstCell(s, d) && CellsText(s[d + 1..])
  }

  /** A token that starts with a letter, then brackets. */
  ghost predicate IsElementary(text: string) {
    exists k | 0 < k <= |text| :: IsToken(text[..k], false) && CellsText(text[k..])
  }

  /** What cannot be read on as part of the elementary type. */
  ghost predicate Follows(text: string, rest: string) {
    rest == "" || (rest[0] != '[' && (!InToken(rest[0], false) || (text != "" && text[|text| - 1] == ']')))
  }

  lemma {:induction false} TokenExactly(s: string, isIdent: bool, p: string, rest: string)
    ensures Token(s, isIdent) == Ok((p, rest)) <==> s == p + rest && IsToken(p, isIdent) && (rest == "" || !InToken(rest[0], isIdent))
  {
    if s == p + rest && IsToken(p, isIdent) && (rest == "" || !InToken(rest[0], isIdent)) {
      TokenIs(p, rest, isIdent);
    }
    if s != "" && StartsToken(s[0], isIdent) {
      EndMeans(s, isIdent, 1);
      assert InToken(s[0], isIdent);
    }
  }

  lemma {:induction false} CellsTextCons(ds: string, more: string)
    requires Digits(ds) && CellsText(more)
    ensures CellsText(Cell(ds) + more)
  {
    var s, d := Cell(ds) + more, |ds| + 1;
    assert s[1..d] == ds && s[d + 1..] == more;
    assert FirstCell(s, d);
  }

  lemma {:induction false} CutCell(s: string, d: int)
    requires FirstCell(s, d)
    ensures s == Cell(s[1..d]) + s[d + 1..]
  {
  }

  /** So many bytes of brackets, and no bracket behind them. */
  ghost predicate CellsUpTo(s: string, n: nat) {
    n <= |s| && CellsText(s[..n]) && (n == |s| || s[n] != '[')
  }

  lemma {:induction false} CellsUpToCons(ds: string, more: string, n: nat)
    requires Digits(ds) && CellsUpTo(more, n)
    ensures CellsUpTo(Cell(ds) + more, |ds| + 2 + n)
  {
    var s := Cell(ds) + more;
    CellsTextCons(ds, more[..n]);
    assert s[..|ds| + 2 + n] == Cell(ds) + more[..n];
    assert n < |more| ==> s[|ds| + 2 + n] == more[n];
  }

  /** The brackets that the parser opens first, and what is behind them. */
  lemma {:induction false} FirstBrackets(s: string, n: nat) returns (ds: string, more: string, m: nat)
    requires Brackets(s) == Some(n) && s != "" && s[0] == '['
    ensures Digits(ds) && s == Cell(ds) + more && Brackets(more) == Some(m) && n == |ds| + 2 + m && |more| < |s|
  {
    var d := DigitEnd(s, 1);
    DigitEndMeans(s, 1);
    assert FirstCell(s, d);
    CutCell(s, d);
    ds, more := s[1..d], s[d + 1..];
    m := Brackets(more).value;
  }

  lemma {:induction false} BracketsSound(s: string, n: nat)
    requires Brackets(s) == Some(n)
    ensures CellsUpTo(s, n)
    decreases |s|
  {
    if s != "" && s[0] == '[' {
      var ds, more, m := FirstBrackets(s, n);
      BracketsSound(more, m);
      CellsUpToCons(ds, more, m);
    } else {
      assert s[..0] == "";
    }
  }

  lemma {:induction false} BracketsCons(ds: string, more: string, rest: string)
    requires Digits(ds) && Brackets(more + rest) == Some(|more|)
    ensures Brackets(Cell(ds) + more + rest) == Some(|Cell(ds) + more|)
  {
    OneCell(ds, more + rest);
    Assoc(Cell(ds), more, rest);
  }

  lemma {:induction false} BracketsComplete(cells: string, rest: string)
    requires CellsText(cells) && (rest == "" || rest[0] != '[')
    ensures Brackets(cells + rest) == Some(|cells|)
    decreases |cells|
  {
    if cells == "" {
      assert cells + rest == rest;
    } else {
      var d :| FirstCell(cells, d) && CellsText(cells[d + 1..]);
      var ds, more := cells[1..d], cells[d + 1..];
      BracketsComplete(more, rest);
      BracketsCons(ds, more, rest);
      CutCell(cells, d);
    }
  }

  lemma {:induction false} CellsClose(s: string)
    requires CellsText(s) && s != ""
    ensures s[0] == '[' && s[|s| - 1] == ']'
  {
    var d :| FirstCell(s, d) && CellsText(s[d + 1..]);
    if s[d + 1..] != "" {
      CellsClose(s[d + 1..]);
    }
  }

  /** A token with its brackets is elementary, and nothing more of it follows. */
  lemma {:induction false} TokenWithCells(p: string, cells: string, rest: string)
    requires IsToken(p, false) && CellsText(cells) && (rest == "" || rest[0] != '[')
    requires cells + rest == "" || !InToken((cells + rest)[0], false)
    ensures IsElementary(p + cells) && Follows(p + cells, rest)
  {
    var text := p + cells;
    assert text[..|p|] == p && text[|p|..] == cells;
    if cells != "" {
      CellsClose(cells);
    } else {
      assert cells + rest == rest;
    }
  }

  lemma {:induction false} ElementarySound(s: string)
    requires Elementary(s).Ok?
    ensures var r := Elementary(s).value; s == r.0 + r.1 && IsElementary(r.0) && Follows(r.0, r.1)
  {
    var p := Token(s, false).value;
    TokenExactly(s, false, p.0, p.1);
    var n := Brackets(p.1).value;
    BracketsSound(p.1, n);
    var cells, rest := p.1[..n], p.1[n..];
    assert p.1 == cells + rest;
    Assoc(p.0, cells, rest);
    TokenWithCells(p.0, cells, rest);
  }

  lemma {:induction false} ElementaryComplete(text: string, rest: string)
    requires IsElementary(text) && Follows(text, rest)
    ensures Elementary(text + rest) == Ok((text, rest))
  {
    var k :| 0 < k <= |text| && IsToken(text[..k], false) && CellsText(text[k..]);
    var p, cells := text[..k], text[k..];
    assert text == p + cells;
    Assoc(p, cells, rest);
    var after := cells + rest;
    if cells != "" {
      CellsClose(cells);
    } else {
      assert text == p && after == rest;
      assert InToken(p[k - 1], false);
    }
    TokenExactly(text + rest, false, p, after);
    assert after[..|cells|] == cells && after[|cells|..] == rest;
    BracketsComplete(cells, rest);
  }

  // Types and lists.

  predicate StartsPair(s: string) {
    |s| >= 2 && s[0] == '[' && s[1] == ']'
  }

  /** The string spells the tree, and `rest` is left over. */
  ghost predicate Derives(p: Piece, s: string, rest: string)
    decreases p, 0
  {
    match p
    case Str(text) => s == text + rest && IsElementary(text) && Follows(text, rest)
    case Items(items) => DerivesTuple(items, s, rest)
  }

  /** A parenthesised list, with a mark at its end for one `[]` behind it. */
  ghost predicate DerivesTuple(items: seq<Piece>, s: string, rest: string)
    decreases items, 3
  {
    && s != "" && s[0] == '('
    && (|| (DerivesList(items, s[1..], ")" + rest) && !StartsPair(rest))
        || (items != [] && items[|items| - 1] == Str("[]") && DerivesList(items[..|items| - 1], s[1..], ")[]" + rest)))
  }

  /** Some types, a byte other than `)` between any two, and then `end`. */
  ghost predicate DerivesList(items: seq<Piece>, s: string, end: string)
    decreases items, 2
  {
    items != [] && exists mid :: Derives(items[0], s, mid) && DerivesRest(items, mid, end)
  }

  ghost predicate DerivesRest(items: seq<Piece>, mid: string, end: string)
    requires items != []
    decreases items, 1
  {
    if |items| == 1 then mid == end else mid != "" && mid[0] != ')' && DerivesList(items[1..], mid[1..], end)
  }

  /** The parser takes a string as a tree, leaving a rest, exactly when the string spells that tree before that rest. */
  lemma {:induction false} TypeExactly(s: string, p: Piece, rest: string)
    ensures TypePiece(s) == Ok((p, rest)) <==> Derives(p, s, rest)
    decreases |s|, 1
  {
    match p
    case Str(text) => StrExactly(s, text, rest);
    case Items(items) => CompositeExactly(s, items, rest);
  }

  lemma {:induction false} StrExactly(s: string, text: string, rest: string)
    ensures TypePiece(s) == Ok((Str(text), rest)) <==> Derives(Str(text), s, rest)
  {
    if Elementary(s).Ok? {
      ElementarySound(s);
    }
    if Derives(Str(text), s, rest) {
      ElementaryComplete(text, rest);
      var k :| 0 < k <= |text| && IsToken(text[..k], false) && CellsText(text[k..]);
      assert s[0] == text[..k][0];
    }
  }

  lemma {:induction false} CompositeExactly(s: string, items: seq<Piece>, rest: string)
    ensures TypePiece(s) == Ok((Items(items), rest)) <==> DerivesTuple(items, s, rest)
    ensures Composite(s) == Ok((items, rest)) <==> DerivesTuple(items, s, rest)
    decreases |s|, 0
  {
    if s != "" && s[0] == '(' {
      var r := TypeList(s[1..]);
      ListExactly(s[1..], items, ")" + rest);
      if items != [] {
        ListExactly(s[1..], items[..|items| - 1], ")[]" + rest);
      }
      ClosedExactly(s, items, rest);
    }
  }

  /** What closes a list, from what the list left over. */
  lemma {:induction false} ClosedExactly(s: string, items: seq<Piece>, rest: string)
    requires s != "" && s[0] == '('
    ensures Composite(s) == Ok((items, rest)) <==>
            || (TypeList(s[1..]) == Ok((items, ")" + rest)) && !StartsPair(rest))
            || (items != [] && items[|items| - 1] == Str("[]") && TypeList(s[1..]) == Ok((items[..|items| - 1], ")[]" + rest)))
  {
    var r := TypeList(s[1..]);
    if r.Ok? {
      var ps, e := r.value.0, r.value.1;
      assert e == ")" + e[1..];
      assert StartsPair(e[1..]) ==> e == ")[]" + e[3..];
      assert (")" + rest)[1..] == rest && (")[]" + rest)[3..] == rest;
      assert (ps + [Str("[]")])[..|ps|] == ps;
      assert items != [] ==> items == items[..|items| - 1] + [items[|items| - 1]];
    }
  }

  lemma {:induction false} ListSound(s: string, items: seq<Piece>, end: string)
    requires TypeList(s) == Ok((items, end))
    ensures DerivesList(items, s, end)
    decreases |s|, 2
  {
    var p, mid := TypePiece(s).value.0, TypePiece(s).value.1;
    TypeExactly(s, p, mid);
    if mid[0] != ')' {
      assert WithList([p], mid).Ok?;
      var q := TypeList(mid[1..]).value;
      ListSound(mid[1..], q.0, q.1);
      assert items[1..] == q.0;
    }
    assert items[0] == p;
    assert DerivesRest(items, mid, end);
  }

  lemma {:induction false} FirstOf(s: string, items: seq<Piece>, end: string) returns (mid: string)
    requires DerivesList(items, s, end)
    ensures items != [] && Derives(items[0], s, mid) && DerivesRest(items, mid, end)
  {
    mid :| Derives(items[0], s, mid) && DerivesRest(items, mid, end);
  }

  lemma {:induction false} ListComplete(s: string, items: seq<Piece>, end: string)
    requires DerivesList(items, s, end) && end != "" && end[0] == ')'
    ensures TypeList(s) == Ok((items, end))
    decreases |s|, 2
  {
    var mid := FirstOf(s, items, end);
    TypeExactly(s, items[0], mid);
    if |items| > 1 {
      ListComplete(mid[1..], items[1..], end);
      assert [items[0]] + items[1..] == items;
    } else {
      assert [items[0]] == items;
    }
  }

  lemma {:induction false} ListExactly(s: string, items: seq<Piece>, end: string)
    requires end != "" && end[0] == ')'
    ensures TypeList(s) == Ok((items, end)) <==> DerivesList(items, s, end)
    decreases |s|, 3
  {
    if TypeList(s) == Ok((items, end)) {
      ListSound(s, items, end);
    }
    if DerivesList(items, s, end) {
      ListComplete(s, items, end);
    }
  }

  // Selectors.

  /** `()`, or a parenthesised list that is read to the end. */
  ghost predicate SpellsInputs(args: string, inputs: seq<Marshal>) {
    (args == "()" && inputs == []) || exists items :: DerivesTuple(items, args, "") && inputs == AssembleAll(items)
  }

  ghost predicate SpellsSelector(s: string, sel: Selector) {
    IsToken(sel.name, true) && sel.name <= s && SpellsInputs(s[|sel.name|..], sel.inputs)
  }

  lemma {:induction false} NoEmptyList(args: string)
    ensures |args| >= 2 && args[0] == '(' && args[1] == ')' ==> Composite(args).Err?
  {
    if |args| >= 2 && args[0] == '(' && args[1] == ')' {
      assert args[1..][0] == ')';
      assert Elementary(args[1..]).Err? && TypePiece(args[1..]).Err?;
      assert TypeList(args[1..]).Err?;
    }
  }

  /** The inputs, once the name is read. */
  lemma {:induction false} InputsExactly(name: string, args: string, inputs: seq<Marshal>)
    requires IsToken(name, true) && (args == "" || !InToken(args[0], true))
    ensures Select(name + args) == Ok(Selector(name, inputs)) <==> SpellsInputs(args, inputs)
  {
    TokenExactly(name + args, true, name, args);
    NoEmptyList(args);
    if Composite(args).Ok? {
      var ps := Composite(args).value.0;
      CompositeExactly(args, ps, "");
    }
    if exists items :: DerivesTuple(items, args, "") && inputs == AssembleAll(items) {
      var items :| DerivesTuple(items, args, "") && inputs == AssembleAll(items);
      CompositeExactly(args, items, "");
    }
  }

  /** `ParseSelector` accepts a string exactly when it is an identifier and `()`, or an identifier and a list of types. */
  lemma {:induction false} SelectExactly(s: string, sel: Selector)
    ensures Select(s) == Ok(sel) <==> SpellsSelector(s, sel)
  {
    var r := Token(s, true);
    if r.Ok? {
      TokenExactly(s, true, r.value.0, r.value.1);
      assert s[|r.value.0|..] == r.value.1;
      InputsExactly(r.value.0, r.value.1, sel.inputs);
    }
    if SpellsSelector(s, sel) {
      var args := s[|sel.name|..];
      assert s == sel.name + args;
      TokenExactly(s, true, sel.name, args);
    }
  }
}
