/** Exactly which strings `NewType` takes, and as which type: brackets from the right, then a word and a size. */
module NewTypeExact {
  import opened Wrappers
  import opened Bytes
  import opened AbiTypes
  import opened SelectorParse
  import opened SelectorTypes
  import opened SelectorRoundTrip
  import opened SelectorRebuild

  // Brackets.

  ghost predicate NoDigit(s: string, lo: int, hi: int) {
    forall k | lo <= k < hi && 0 <= k < |s| :: !IsDigit(s[k])
  }

  /** From `i` on, all the digits are those from `a` to `b`. */
  ghost predicate OneRun(s: string, i: nat, a: int, b: int) {
    i <= a < b <= |s| && Digits(s[a..b]) && NoDigit(s, i, a) && NoDigit(s, b, |s|)
  }

  lemma {:induction false} NoRuns(s: string, i: nat)
    requires i <= |s|
    ensures DigitRuns(s, i) == [] <==> NoDigit(s, i, |s|)
    decreases |s| - i
  {
    if i < |s| && !IsDigit(s[i]) {
      NoRuns(s, i + 1);
    }
  }

  lemma {:induction false} RunIs(s: string, i: nat, a: int, b: int)
    requires i <= |s| && OneRun(s, i, a, b)
    ensures DigitRuns(s, i) == [s[a..b]]
    decreases |s| - i
  {
    if i < a {
      RunIs(s, i + 1, a, b);
    } else {
      assert s[a] == s[a..b][0];
      assert forall k | a <= k < b :: s[k] == s[a..b][k - a];
      DigitEndIs(s, i, b);
      NoRuns(s, b);
    }
  }

  lemma {:induction false} RunFound(s: string, i: nat) returns (a: int, b: int)
    requires i <= |s| && |DigitRuns(s, i)| == 1
    ensures OneRun(s, i, a, b) && DigitRuns(s, i)[0] == s[a..b]
    decreases |s| - i
  {
    if !IsDigit(s[i]) {
      a, b := RunFound(s, i + 1);
    } else {
      DigitEndMeans(s, i);
      a, b := i, DigitEnd(s, i);
      NoRuns(s, b);
    }
  }

  /** What brackets make of a type: a slice where they have no digit, an array where they have one run of digits. */
  ghost predicate CellMakes(inner: Ty, cell: string, ty: Ty) {
    || (NoDigit(cell, 0, |cell|) && ty == SliceT(inner))
    || exists a, b :: OneRun(cell, 0, a, b) && Value(cell[a..b]) < TWO_63 && ty == ArrayT(inner, Value(cell[a..b]))
  }

  lemma {:induction false} CellExactly(inner: (Ty, string), cell: string, ty: Ty)
    ensures Bracketed(inner, cell) == Ok((ty, inner.1 + cell)) <==> CellMakes(inner.0, cell, ty)
  {
    var runs := DigitRuns(cell, 0);
    NoRuns(cell, 0);
    if |runs| == 1 {
      var a, b := RunFound(cell, 0);
    }
    forall a, b | OneRun(cell, 0, a, b)
      ensures runs == [cell[a..b]]
    {
      RunIs(cell, 0, a, b);
    }
  }

  /** `NewType` takes a string with brackets exactly when they are balanced and its last cell makes the type. */
  lemma {:induction false} BracketedExactly(t: string, components: seq<Marshal>, ty: Ty)
    requires Count(t, '[') != 0
    ensures var i := LastIndex(t, '[');
            (exists kind :: TypeOf(t, components) == Ok((ty, kind))) <==>
            && Count(t, '[') == Count(t, ']') && TypeOf(t[..i], components).Ok?
            && CellMakes(TypeOf(t[..i], components).value.0, t[i..], ty)
  {
    var i := LastIndex(t, '[');
    if TypeOf(t[..i], components).Ok? {
      CellExactly(TypeOf(t[..i], components).value, t[i..], ty);
    }
  }

  // Words.

  ghost predicate NoLetter(t: string, hi: int) {
    forall k | 0 <= k < hi && k < |t| :: !IsAlpha(t[k])
  }

  /** The first word of the string, from `p` to `q`, and the digits right behind it, to `d`. */
  ghost predicate Splits(t: string, p: int, q: int, d: int) {
    && 0 <= p < q <= d <= |t| && NoLetter(t, p)
    && (forall k | p <= k < q :: IsAlpha(t[k])) && (q == |t| || !IsAlpha(t[q]))
    && Digits(t[q..d]) && (d == |t| || !IsDigit(t[d]))
  }

  lemma {:induction false} FirstLetterMeans(t: string, i: nat)
    requires i <= |t|
    ensures forall k | i <= k < FirstLetter(t, i) :: !IsAlpha(t[k])
    decreases |t| - i
  {
    if i < |t| && !IsAlpha(t[i]) {
      FirstLetterMeans(t, i + 1);
    }
  }

  lemma {:induction false} LetterEndMeans(t: string, i: nat)
    requires i <= |t|
    ensures var e := LetterEnd(t, i);
            (forall k | i <= k < e :: IsAlpha(t[k])) && (e == |t| || !IsAlpha(t[e])) && (i < |t| && IsAlpha(t[i]) ==> i < e)
    decreases |t| - i
  {
    if i < |t| && IsAlpha(t[i]) {
      LetterEndMeans(t, i + 1);
    }
  }

  /** There is one such split, unless the string has no letter. */
  lemma {:induction false} SplitsExactly(t: string, p: int, q: int, d: int)
    ensures Splits(t, p, q, d) <==>
            FirstLetter(t, 0) < |t| && p == FirstLetter(t, 0) && q == LetterEnd(t, p) && d == DigitEnd(t, q)
  {
    FirstLetterMeans(t, 0);
    if Splits(t, p, q, d) {
      assert IsAlpha(t[p]);
      assert FirstLetter(t, 0) == p;
      LetterEndIs(t, p, q);
      assert forall k | q <= k < d :: t[k] == t[q..d][k - q];
      DigitEndIs(t, q, d);
    }
    if FirstLetter(t, 0) < |t| {
      LetterEndMeans(t, FirstLetter(t, 0));
      DigitEndMeans(t, LetterEnd(t, FirstLetter(t, 0)));
    }
  }

  /** A size that `Atoi` reads: no `x` and digit behind it, and below 2^63. */
  ghost predicate SizeRead(t: string, q: int, d: int)
    requires 0 <= q <= d <= |t| && Digits(t[q..d])
  {
    q == d || (!(d + 1 < |t| && t[d] == 'x' && IsDigit(t[d + 1])) && Value(t[q..d]) < TWO_63)
  }

  /** The word and the digits name the type: a tuple of the components, or an elementary type of that size. */
  ghost predicate WordNames(t: string, q: int, d: int, word: string, components: seq<Marshal>, ty: Ty)
    requires 0 <= q <= d <= |t| && Digits(t[q..d])
  {
    SizeRead(t, q, d) &&
    if word == "tuple" then ty.TupleT? && TypesOf(components).Ok? && TypesOf(components).value.0 == ty.elems
    else !ty.SliceT? && !ty.ArrayT? && !ty.TupleT? && Supported(ty) && word == Word(ty) && SizeFits(ty, t[q..d])
  }

  /** `NewType` takes a string without brackets exactly when its first word, with the digits behind it, names the type. */
  lemma {:induction false} UnbracketedExactly(t: string, components: seq<Marshal>, ty: Ty)
    requires Count(t, '[') == 0 && Count(t, ']') == 0
    ensures (exists kind :: TypeOf(t, components) == Ok((ty, kind))) <==>
            exists p, q, d :: Splits(t, p, q, d) && WordNames(t, q, d, t[p..q], components, ty)
  {
    var p := FirstLetter(t, 0);
    if p < |t| {
      var q := LetterEnd(t, p);
      var d := DigitEnd(t, q);
      SplitsExactly(t, p, q, d);
      BasicExactly(t[p..q], t[q..d], HasFraction(t, d), ty);
      assert WordNames(t, q, d, t[p..q], components, ty) <==> exists kind :: TypeOf(t, components) == Ok((ty, kind));
    }
    forall p, q, d | Splits(t, p, q, d)
      ensures FirstLetter(t, 0) < |t| && p == FirstLetter(t, 0) && q == LetterEnd(t, p) && d == DigitEnd(t, q)
    {
      SplitsExactly(t, p, q, d);
    }
  }
}
