/** From a parsed selector to ABI types: `assembleArgs`, `ParseSelector`, `NewType` and the method signature. */
module SelectorTypes {
  import opened Wrappers
  import opened AbiTypes
  import opened Bytes
  import opened SelectorParse

  /** `ArgumentMarshaling`, without the dummy names: a type string and the components of a tuple. */
  datatype Marshal = Marshal(text: string, components: seq<Marshal>)

  datatype Selector = Selector(name: string, inputs: seq<Marshal>)

  datatype TypeError = InvalidType

  /** A type together with its canonical string, `Type.stringKind`. */
  type Typed = Result<(Ty, string), TypeError>

  function Assemble(p: Piece): Marshal
    decreases p
  {
    match p
    case Str(text) => Marshal(text, [])
    case Items(items) =>
      var sub := AssembleAll(items);
      if sub != [] && sub[|sub| - 1].text == "[]" then Marshal("tuple[]", sub[..|sub| - 1]) else Marshal("tuple", sub)
  }

  function AssembleAll(ps: seq<Piece>): (ms: seq<Marshal>)
    ensures |ms| == |ps| && forall i | 0 <= i < |ps| :: ms[i] == Assemble(ps[i])
    decreases ps
  {
    if ps == [] then [] else [Assemble(ps[0])] + AssembleAll(ps[1..])
  }

  /** `assembleArgs`. */
  method AssembleArgs(args: seq<Piece>) returns (arguments: seq<Marshal>)
    ensures arguments == AssembleAll(args)
    decreases args
  {
    arguments := [];
    for i := 0 to |args|
      invariant |arguments| == i && forall k | 0 <= k < i :: arguments[k] == Assemble(args[k])
    {
      match args[i]
      case Str(text) => arguments := arguments + [Marshal(text, [])];
      case Items(items) =>
        var sub := AssembleArgs(items);
        var tupleType := "tuple";
        if |sub| != 0 && sub[|sub| - 1].text == "[]" {
          sub := sub[..|sub| - 1];
          tupleType := "tuple[]";
        }
        arguments := arguments + [Marshal(tupleType, sub)];
    }
  }

  function Select(s: string): Result<Selector, Fault> {
    match Token(s, true)
    case Err(e) => Err(e)
    case Ok(p) =>
      if |p.1| >= 2 && p.1[0] == '(' && p.1[1] == ')' then
        if |p.1| > 2 then Err(Syntax) else Ok(Selector(p.0, []))
      else
        match Composite(p.1)
        case Err(e) => Err(e)
        case Ok(q) => if q.1 != "" then Err(Syntax) else Ok(Selector(p.0, AssembleAll(q.0)))
  }

  /** `ParseSelector`. */
  method ParseSelector(s: string) returns (r: Result<Selector, Fault>)
    ensures r == Select(s)
  {
    var t := ParseToken(s, true);
    if t.Err? {
      return Err(t.error);
    }
    var args, rest := [], t.value.1;
    if |rest| >= 2 && rest[0] == '(' && rest[1] == ')' {
      rest := rest[2..];
    } else {
      var c := ParseCompositeType(rest);
      if c.Err? {
        return Err(c.error);
      }
      args, rest := c.value.0, c.value.1;
    }
    if |rest| > 0 {
      return Err(Syntax);
    }
    var fakeArgs := AssembleArgs(args);
    r := Ok(Selector(t.value.0, fakeArgs));
  }

  /** `ParseSelector` fails by panic exactly on a selector that is an identifier and nothing else. */
  lemma PanicsOnBareName(s: string)
    ensures Select(s) == Err(IndexPanic) <==> s != "" && StartsToken(s[0], true) && forall i | 0 <= i < |s| :: InToken(s[i], true)
  {
    if s != "" && StartsToken(s[0], true) {
      EndMeans(s, true, 1);
      assert InToken(s[0], true);
    }
  }

  lemma BareNamePanics()
    ensures Select("f") == Err(IndexPanic)
  {
    PanicsOnBareName("f");
  }

  /** A token run ends at the first byte outside the token alphabet. */
  lemma {:induction false} EndMeans(s: string, isIdent: bool, i: nat)
    requires i <= |s|
    ensures var e := TokenEnd(s, isIdent, i);
            (forall k | i <= k < e :: InToken(s[k], isIdent)) && (e == |s| || !InToken(s[e], isIdent))
    decreases |s| - i
  {
    if i < |s| && InToken(s[i], isIdent) {
      EndMeans(s, isIdent, i + 1);
    }
  }

  function Count(t: string, c: char): (n: nat) {
    if t == "" then 0 else Count(t[..|t| - 1], c) + if t[|t| - 1] == c then 1 else 0
  }

  /** `strings.LastIndex` of a character that occurs. */
  function LastIndex(t: string, c: char): (i: nat)
    requires Count(t, c) != 0
    ensures i < |t| && t[i] == c && forall k | i < k < |t| :: t[k] != c
  {
    if t[|t| - 1] == c then |t| - 1 else LastIndex(t[..|t| - 1], c)
  }

  /** The value of decimal digits, as `strconv.Atoi` reads them when they fit an `int`. */
  function Value(ds: string): nat
    requires forall i | 0 <= i < |ds| :: IsDigit(ds[i])
  {
    if ds == "" then 0
    else
      assert IsDigit(ds[|ds| - 1]);
      Value(ds[..|ds| - 1]) * 10 + (ds[|ds| - 1] as int - '0' as int)
  }

  /** The maximal runs of digits from `i` on: `FindAllString` of `[0-9]+`. */
  function DigitRuns(s: string, i: nat): (rs: seq<string>)
    requires i <= |s|
    ensures forall k | 0 <= k < |rs| :: forall j | 0 <= j < |rs[k]| :: IsDigit(rs[k][j])
    decreases |s| - i
  {
    if i == |s| then []
    else if !IsDigit(s[i]) then DigitRuns(s, i + 1)
    else
      DigitEndMeans(s, i);
      [s[i..DigitEnd(s, i)]] + DigitRuns(s, DigitEnd(s, i))
  }

  lemma {:induction false} DigitEndMeans(s: string, i: nat)
    requires i <= |s|
    ensures var e := DigitEnd(s, i);
            (forall k | i <= k < e :: IsDigit(s[k])) && (e == |s| || !IsDigit(s[e])) && (i < |s| && IsDigit(s[i]) ==> i < e)
    decreases |s| - i
  {
    if i < |s| && IsDigit(s[i]) {
      DigitEndMeans(s, i + 1);
    }
  }

  /** The first run of letters: where the type regexp matches first. */
  function FirstLetter(t: string, i: nat): (p: nat)
    requires i <= |t|
    ensures i <= p <= |t| && (p < |t| ==> IsAlpha(t[p]))
    decreases |t| - i
  {
    if i == |t| || IsAlpha(t[i]) then i else FirstLetter(t, i + 1)
  }

  function LetterEnd(t: string, i: nat): (e: nat)
    requires i <= |t|
    ensures i <= e <= |t|
    decreases |t| - i
  {
    if i < |t| && IsAlpha(t[i]) then LetterEnd(t, i + 1) else i
  }

  /** An `xN` after the size, as in `fixed128x18`: `Atoi` refuses the size then. */
  predicate HasFraction(t: string, i: nat)
    requires i <= |t|
  {
    i + 1 < |t| && t[i] == 'x' && IsDigit(t[i + 1])
  }

  /** `NewType` on a string without brackets that is not a tuple. */
  function Basic(word: string, digits: string, fraction: bool): Result<Ty, TypeError>
    requires forall i | 0 <= i < |digits| :: IsDigit(digits[i])
  {
    var size := Value(digits);
    if digits != "" && (fraction || size >= TWO_63) then Err(InvalidType)
    else if word == "int" then if digits == "" then Err(InvalidType) else Ok(IntT(size))
    else if word == "uint" then if digits == "" then Err(InvalidType) else Ok(UintT(size))
    else if word == "bool" then Ok(BoolT)
    else if word == "address" then Ok(AddressT)
    else if word == "string" then Ok(StringT)
    else if word == "bytes" then if size == 0 then Ok(BytesT) else if size > 32 then Err(InvalidType) else Ok(FixedBytesT(size))
    else if word == "function" then Ok(FunctionT)
    else Err(InvalidType)
  }

  /** One more pair of brackets around a type; `sliced` is the last cell. */
  function Bracketed(inner: (Ty, string), sliced: string): Typed {
    var runs := DigitRuns(sliced, 0);
    if runs == [] then Ok((SliceT(inner.0), inner.1 + sliced))
    else if |runs| > 1 || Value(runs[0]) >= TWO_63 then Err(InvalidType)
    else Ok((ArrayT(inner.0, Value(runs[0])), inner.1 + sliced))
  }

  /** `NewType` and the canonical string it gives the type. */
  function TypeOf(t: string, components: seq<Marshal>): Typed
    decreases components, |t|
  {
    if Count(t, '[') != Count(t, ']') then Err(InvalidType)
    else if Count(t, '[') != 0 then
      var i := LastIndex(t, '[');
      match TypeOf(t[..i], components)
      case Err(_) => Err(InvalidType)
      case Ok(inner) => Bracketed(inner, t[i..])
    else
      var p := FirstLetter(t, 0);
      if p == |t| then Err(InvalidType)
      else
        var q := LetterEnd(t, p);
        var d := DigitEnd(t, q);
        DigitEndMeans(t, q);
        if t[p..q] == "tuple" && !(q < d && (HasFraction(t, d) || Value(t[q..d]) >= TWO_63)) then
          match TypesOf(components)
          case Err(_) => Err(InvalidType)
          case Ok(ts) => Ok((TupleT(ts.0), "(" + Joined(ts.1) + ")"))
        else
          match Basic(t[p..q], t[q..d], HasFraction(t, d))
          case Err(_) => Err(InvalidType)
          case Ok(ty) => Ok((ty, t))
  }

  function TypesOf(ms: seq<Marshal>): (r: Result<(seq<Ty>, seq<string>), TypeError>)
    ensures r.Ok? ==> |r.value.0| == |r.value.1| == |ms|
    ensures r.Ok? ==> forall k | 0 <= k < |ms| :: TypeOf(ms[k].text, ms[k].components) == Ok((r.value.0[k], r.value.1[k]))
    ensures r.Err? ==> exists k | 0 <= k < |ms| :: TypeOf(ms[k].text, ms[k].components).Err?
    decreases ms, 0
  {
    if ms == [] then Ok(([], []))
    else
      match TypeOf(ms[0].text, ms[0].components)
      case Err(_) => Err(InvalidType)
      case Ok(t) =>
        match TypesOf(ms[1..])
        case Err(_) => Err(InvalidType)
        case Ok(ts) => Ok(([t.0] + ts.0, [t.1] + ts.1))
  }

  /** `strings.Join` with commas. */
  function Joined(parts: seq<string>): string {
    if parts == [] then ""
    else if |parts| == 1 then parts[0]
    else parts[0] + "," + Joined(parts[1..])
  }

  /** `Method.Sig`. */
  function Signature(name: string, kinds: seq<string>): string {
    name + "(" + Joined(kinds) + ")"
  }

  lemma {:induction false} JoinedSnoc(parts: seq<string>, last: string)
    requires parts != []
    ensures Joined(parts + [last]) == Joined(parts) + "," + last
  {
    if |parts| > 1 {
      JoinedSnoc(parts[1..], last);
      assert (parts + [last])[1..] == parts[1..] + [last];
      assert parts[0] + "," + (Joined(parts[1..]) + "," + last) == parts[0] + "," + Joined(parts[1..]) + "," + last;
    } else {
      assert (parts + [last])[1..] == [last];
    }
  }

  /** The types, and their strings, of the first components. */
  ghost predicate AreTypes(ms: seq<Marshal>, ts: seq<Ty>, kinds: seq<string>) {
    && |ts| == |kinds| <= |ms|
    && forall k | 0 <= k < |ts| :: TypeOf(ms[k].text, ms[k].components) == Ok((ts[k], kinds[k]))
  }

  lemma AreTypesIs(ms: seq<Marshal>, ts: seq<Ty>, kinds: seq<string>)
    requires AreTypes(ms, ts, kinds) && |ts| == |ms|
    ensures TypesOf(ms) == Ok((ts, kinds))
  {
    var r := TypesOf(ms);
    assert r.Ok? && r.value.0 == ts && r.value.1 == kinds;
  }

  /** The tuple expression after some of its `n` fields. */
  ghost function Expression(kinds: seq<string>, n: nat): string {
    "(" + Joined(kinds) + if 0 < |kinds| < n then "," else ""
  }

  lemma ExpressionStep(kinds: seq<string>, kind: string, n: nat)
    requires |kinds| < n
    ensures Expression(kinds + [kind], n) == Expression(kinds, n) + kind + if |kinds| != n - 1 then "," else ""
  {
    if kinds != [] {
      JoinedSnoc(kinds, kind);
    } else {
      assert kinds + [kind] == [kind];
    }
  }

  /** The tuple case of `NewType`: the field types and the expression that names them. */
  method NewTuple(components: seq<Marshal>) returns (r: Typed)
    ensures r == if TypesOf(components).Err? then Err(InvalidType)
                 else Ok((TupleT(TypesOf(components).value.0), "(" + Joined(TypesOf(components).value.1) + ")"))
    decreases components, 0
  {
    var elems: seq<Ty> := [];
    ghost var kinds: seq<string> := [];
    var expression := "(";
    for i := 0 to |components|
      invariant |elems| == i && AreTypes(components, elems, kinds)
      invariant expression == Expression(kinds, |components|)
    {
      var c := NewType(components[i].text, components[i].components);
      if c.Err? {
        return Err(InvalidType);
      }
      ExpressionStep(kinds, c.value.1, |components|);
      elems, kinds := elems + [c.value.0], kinds + [c.value.1];
      expression := expression + c.value.1;
      if i != |components| - 1 {
        expression := expression + ",";
      }
    }
    AreTypesIs(components, elems, kinds);
    assert expression == "(" + Joined(kinds);
    r := Ok((TupleT(elems), expression + ")"));
  }

  /** `NewType`. */
  method NewType(t: string, components: seq<Marshal>) returns (r: Typed)
    ensures r == TypeOf(t, components)
    decreases components, |t| + 1
  {
    if Count(t, '[') != Count(t, ']') {
      return Err(InvalidType);
    }
    if Count(t, '[') != 0 {
      var i := LastIndex(t, '[');
      var embedded :- NewType(t[..i], components);
      return Bracketed(embedded, t[i..]);
    }
    var p := FirstLetter(t, 0);
    if p == |t| {
      return Err(InvalidType);
    }
    var q := LetterEnd(t, p);
    var d := DigitEnd(t, q);
    DigitEndMeans(t, q);
    if t[p..q] == "tuple" && !(q < d && (HasFraction(t, d) || Value(t[q..d]) >= TWO_63)) {
      r := NewTuple(components);
    } else {
      var ty :- Basic(t[p..q], t[q..d], HasFraction(t, d));
      r := Ok((ty, t));
    }
  }
}
