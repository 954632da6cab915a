/** Account URLs, their order (accounts/url.go), and `sort.Search` over lists in that order. */
module Url {
  import Lex

  datatype URL = URL(scheme: string, path: string)

  /** `u.Cmp(v) < 0`. */
  predicate Less(u: URL, v: URL) {
    if u.scheme == v.scheme then Lex.Less(u.path, v.path) else Lex.Less(u.scheme, v.scheme)
  }

  /** By scheme, and by path within a scheme, each in the order of strings. */
  lemma LessIs(u: URL, v: URL)
    ensures Less(u, v) <==> Lex.Before(u.scheme, v.scheme) || (u.scheme == v.scheme && Lex.Before(u.path, v.path))
  {
    Lex.LessIs(u.scheme, v.scheme);
    Lex.LessIs(u.path, v.path);
    Lex.Irreflexive(u.scheme);
  }

  lemma Irreflexive(u: URL)
    ensures !Less(u, u)
  {
    Lex.Irreflexive(u.path);
  }

  lemma Transitive(u: URL, v: URL, w: URL)
    requires Less(u, v) && Less(v, w)
    ensures Less(u, w)
  {
    if u.scheme == v.scheme && v.scheme == w.scheme {
      Lex.Transitive(u.path, v.path, w.path);
    } else if u.scheme != v.scheme && v.scheme != w.scheme {
      Lex.Transitive(u.scheme, v.scheme, w.scheme);
      Lex.Irreflexive(u.scheme);
      if u.scheme == w.scheme {
        assert false;
      }
    }
  }

  lemma Total(u: URL, v: URL)
    ensures Less(u, v) || u == v || Less(v, u)
  {
    Lex.Total(u.path, v.path);
    Lex.Total(u.scheme, v.scheme);
  }

  /** At most one way round. */
  lemma Asymmetric(u: URL, v: URL)
    requires Less(u, v)
    ensures !Less(v, u) && u != v
  {
    Irreflexive(u);
    if Less(v, u) {
      Transitive(u, v, u);
    }
  }

  /** Sorted by URL, equal URLs allowed. */
  ghost predicate Sorted(us: seq<URL>) {
    forall i, j | 0 <= i < j < |us| :: !Less(us[j], us[i])
  }

  /** "At or after `u`" holds from some index on. */
  lemma FromSomeIndex(us: seq<URL>, u: URL, j: nat, k: nat)
    requires Sorted(us) && j <= k < |us| && !Less(us[j], u)
    ensures !Less(us[k], u)
  {
    if Less(us[k], u) {
      Total(us[j], us[k]);
      if Less(us[j], us[k]) {
        Transitive(us[j], us[k], u);
      }
    }
  }

  /** Once the condition holds it goes on holding. */
  ghost predicate Rising(n: nat, f: nat -> bool) {
    forall j, k | 0 <= j <= k < n && f(j) :: f(k)
  }

  /** `sort.Search(n, f)`: a place where the condition starts to hold; the only one, if it goes on holding. */
  method Search(n: nat, f: nat -> bool) returns (i: nat)
    ensures i <= n && (i < n ==> f(i)) && (i > 0 ==> !f(i - 1))
    ensures Rising(n, f) ==> forall j | 0 <= j < n :: f(j) <==> i <= j
  {
    var j := n;
    i := 0;
    while i < j
      invariant i <= j <= n && (i > 0 ==> !f(i - 1)) && (j < n ==> f(j))
    {
      var h := (i + j) / 2;
      if !f(h) {
        i := h + 1;
      } else {
        j := h;
      }
    }
  }
}
