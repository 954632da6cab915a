/** The selector parser (accounts/abi/selector_parser.go): recursive descent over the bytes of a method selector. */
module SelectorParse {
  import opened Wrappers

  /** What the parser builds: an elementary type as text, or the list of a composite type. */
  datatype Piece = Str(text: string) | Items(items: seq<Piece>)

  /** An error return, or the run-time panic of an index past the end. */
  datatype Fault = Syntax | IndexPanic

  type Parse<T> = Result<(T, string), Fault>

  predicate IsDigit(c: char) {
    '0' <= c <= '9'
  }

  predicate IsAlpha(c: char) {
    'a' <= c <= 'z' || 'A' <= c <= 'Z'
  }

  predicate IsSymbol(c: char) {
    c == '$' || c == '_'
  }

  predicate StartsToken(c: char, isIdent: bool) {
    IsAlpha(c) || (isIdent && IsSymbol(c))
  }

  predicate InToken(c: char, isIdent: bool) {
    IsAlpha(c) || IsDigit(c) || (isIdent && IsSymbol(c))
  }

  /** The end of the run of token bytes that covers `s` from `i`. */
  function TokenEnd(s: string, isIdent: bool, i: nat): (e: nat)
    requires i <= |s|
    ensures i <= e <= |s|
    decreases |s| - i
  {
    if i < |s| && InToken(s[i], isIdent) then TokenEnd(s, isIdent, i + 1) else i
  }

  function Token(s: string, isIdent: bool): Parse<string> {
    if s == "" || !StartsToken(s[0], isIdent) then Err(Syntax)
    else var e := TokenEnd(s, isIdent, 1); Ok((s[..e], s[e..]))
  }

  function DigitEnd(s: string, i: nat): (e: nat)
    requires i <= |s|
    ensures i <= e <= |s|
    decreases |s| - i
  {
    if i < |s| && IsDigit(s[i]) then DigitEnd(s, i + 1) else i
  }

  /** How many bytes of array brackets `s` starts with; none when a bracket does not close. */
  function Brackets(s: string): (n: Option<nat>)
    ensures n.Some? ==> n.value <= |s|
  {
    if s == "" || s[0] != '[' then Some(0)
    else
      var d := DigitEnd(s, 1);
      if d == |s| || s[d] != ']' then None
      else
        match Brackets(s[d + 1..])
        case None => None
        case Some(n) => Some(d + 1 + n)
  }

  /** `parsed` with the brackets that `rest` starts with. */
  function WithBrackets(parsed: string, rest: string): (r: Parse<string>)
    ensures r.Ok? ==> |r.value.1| <= |rest|
  {
    match Brackets(rest)
    case None => Err(Syntax)
    case Some(n) => Ok((parsed + rest[..n], rest[n..]))
  }

  function Elementary(s: string): (r: Parse<string>)
    ensures r.Ok? ==> |r.value.1| < |s|
  {
    match Token(s, false)
    case Err(e) => Err(e)
    case Ok(p) => WithBrackets(p.0, p.1)
  }

  /** One type, then as many more as follow; any byte but `)` separates. */
  function TypeList(s: string): (r: Parse<seq<Piece>>)
    ensures r.Ok? ==> |r.value.1| < |s| && r.value.1 != "" && r.value.1[0] == ')'
    ensures r.Err? ==> r.error == Syntax
    decreases |s|, 2
  {
    match TypePiece(s)
    case Err(e) => Err(e)
    case Ok(p) => WithList([p.0], p.1)
  }

  /** `result` with the types that `rest` goes on with. */
  function WithList(result: seq<Piece>, rest: string): (r: Parse<seq<Piece>>)
    ensures r.Ok? ==> |r.value.1| <= |rest| && r.value.1 != "" && r.value.1[0] == ')'
    ensures r.Err? ==> r.error == Syntax
    decreases |rest|, 0
  {
    if rest == "" then Err(Syntax)
    else if rest[0] == ')' then Ok((result, rest))
    else
      match TypeList(rest[1..])
      case Err(e) => Err(e)
      case Ok(q) => Ok((result + q.0, q.1))
  }

  function Composite(s: string): (r: Parse<seq<Piece>>)
    ensures r.Ok? ==> |r.value.1| < |s|
    ensures r == Err(IndexPanic) <==> s == ""
    decreases |s|, 0
  {
    if s == "" then Err(IndexPanic)
    else if s[0] != '(' then Err(Syntax)
    else
      match TypeList(s[1..])
      case Err(e) => Err(Syntax)
      case Ok(p) =>
        if |p.1| >= 3 && p.1[1] == '[' && p.1[2] == ']' then Ok((p.0 + [Str("[]")], p.1[3..]))
        else Ok((p.0, p.1[1..]))
  }

  function TypePiece(s: string): (r: Parse<Piece>)
    ensures r.Ok? ==> |r.value.1| < |s|
    ensures r.Err? ==> r.error == Syntax
    decreases |s|, 1
  {
    if s == "" then Err(Syntax)
    else if s[0] == '(' then
      match Composite(s)
      case Err(e) => Err(e)
      case Ok(p) => Ok((Items(p.0), p.1))
    else
      match Elementary(s)
      case Err(e) => Err(Syntax)
      case Ok(p) => Ok((Str(p.0), p.1))
  }

  /** `parseToken`. */
  method ParseToken(s: string, isIdent: bool) returns (r: Parse<string>)
    ensures r == Token(s, isIdent)
  {
    if |s| == 0 {
      return Err(Syntax);
    }
    var position := 1;
    if !StartsToken(s[0], isIdent) {
      return Err(Syntax);
    }
    while position < |s| && InToken(s[position], isIdent)
      invariant position <= |s| && TokenEnd(s, isIdent, 1) == TokenEnd(s, isIdent, position)
    {
      position := position + 1;
    }
    r := Ok((s[..position], s[position..]));
  }

  /** The digits inside one pair of brackets, moved byte by byte from `rest` to `parsed`. */
  method ParseDigits(parsed: string, rest: string) returns (parsed': string, rest': string)
    requires rest != ""
    ensures parsed' == parsed + rest[..DigitEnd(rest, 1)] && rest' == rest[DigitEnd(rest, 1)..]
  {
    parsed', rest' := parsed + [rest[0]], rest[1..];
    ghost var k := 1;
    while |rest'| > 0 && IsDigit(rest'[0])
      invariant 1 <= k <= |rest| && rest' == rest[k..] && parsed' == parsed + rest[..k]
      invariant DigitEnd(rest, k) == DigitEnd(rest, 1)
    {
      parsed', rest' := parsed' + [rest'[0]], rest'[1..];
      k := k + 1;
    }
  }

  lemma {:induction false} Cut(parsed: string, s: string, d: nat, n: nat)
    requires d + 1 + n <= |s|
    ensures parsed + s[..d + 1 + n] == parsed + s[..d] + [s[d]] + s[d + 1..][..n]
    ensures s[d + 1 + n..] == s[d + 1..][n..]
  {
    var a, b, c := s[..d], [s[d]], s[d + 1..][..n];
    assert s[..d + 1 + n] == a + b + c;
    assert parsed + (a + b + c) == parsed + a + b + c;
  }

  lemma {:induction false} BracketStep(parsed: string, rest: string)
    requires rest != "" && rest[0] == '['
    ensures var d := DigitEnd(rest, 1);
            WithBrackets(parsed, rest) ==
            if d == |rest| || rest[d] != ']' then Err(Syntax) else WithBrackets(parsed + rest[..d] + [rest[d]], rest[d + 1..])
  {
    var d := DigitEnd(rest, 1);
    if d < |rest| && rest[d] == ']' && Brackets(rest[d + 1..]).Some? {
      var tail, n := rest[d + 1..], Brackets(rest[d + 1..]).value;
      Cut(parsed, rest, d, n);
      assert WithBrackets(parsed, rest) == Ok((parsed + rest[..d + 1 + n], rest[d + 1 + n..]));
      assert WithBrackets(parsed + rest[..d] + [rest[d]], tail) == Ok((parsed + rest[..d] + [rest[d]] + tail[..n], tail[n..]));
    }
  }

  /** `parseElementaryType`. */
  method ParseElementaryType(s: string) returns (r: Parse<string>)
    ensures r == Elementary(s)
  {
    var t := ParseToken(s, false);
    if t.Err? {
      return Err(t.error);
    }
    var parsed, rest := t.value.0, t.value.1;
    while |rest| > 0 && rest[0] == '['
      invariant WithBrackets(t.value.0, t.value.1) == WithBrackets(parsed, rest)
      decreases |rest|
    {
      BracketStep(parsed, rest);
      ghost var was, d := rest, DigitEnd(rest, 1);
      parsed, rest := ParseDigits(parsed, rest);
      assert rest != "" ==> rest[1..] == was[d + 1..];
      if |rest| == 0 || rest[0] != ']' {
        return Err(Syntax);
      }
      parsed, rest := parsed + [rest[0]], rest[1..];
    }
    assert parsed + rest[..0] == parsed;
    r := Ok((parsed, rest));
  }

  lemma {:induction false} ListStep(result: seq<Piece>, rest: string)
    requires rest != "" && rest[0] != ')'
    ensures var t := TypePiece(rest[1..]);
            WithList(result, rest) ==
            if t.Err? then Err(Syntax) else WithList(result + [t.value.0], t.value.1)
  {
    var t := TypePiece(rest[1..]);
    if t.Ok? {
      assert TypeList(rest[1..]) == WithList([t.value.0], t.value.1);
      if t.value.1 != "" && t.value.1[0] != ')' {
        var q := TypeList(t.value.1[1..]);
        if q.Ok? {
          assert result + ([t.value.0] + q.value.0) == result + [t.value.0] + q.value.0;
        }
      }
    }
  }

  /** `parseCompositeType`. */
  method ParseCompositeType(s: string) returns (r: Parse<seq<Piece>>)
    ensures r == Composite(s)
    decreases |s|, 0
  {
    if |s| == 0 {
      return Err(IndexPanic);
    }
    if s[0] != '(' {
      return Err(Syntax);
    }
    var p := ParseType(s[1..]);
    if p.Err? {
      return Err(Syntax);
    }
    var result, rest := [p.value.0], p.value.1;
    while |rest| > 0 && rest[0] != ')'
      invariant |rest| < |s| && TypeList(s[1..]) == WithList(result, rest)
      decreases |rest|
    {
      ListStep(result, rest);
      p := ParseType(rest[1..]);
      if p.Err? {
        return Err(Syntax);
      }
      result, rest := result + [p.value.0], p.value.1;
    }
    if |rest| == 0 {
      return Err(Syntax);
    }
    if |rest| >= 3 && rest[1] == '[' && rest[2] == ']' {
      return Ok((result + [Str("[]")], rest[3..]));
    }
    r := Ok((result, rest[1..]));
  }

  /** `parseType`. */
  method ParseType(s: string) returns (r: Parse<Piece>)
    ensures r == TypePiece(s)
    decreases |s|, 1
  {
    if |s| == 0 {
      return Err(Syntax);
    }
    if s[0] == '(' {
      var c := ParseCompositeType(s);
      return if c.Err? then Err(c.error) else Ok((Items(c.value.0), c.value.1));
    }
    var e := ParseElementaryType(s);
    r := if e.Err? then Err(e.error) else Ok((Str(e.value.0), e.value.1));
  }
}
