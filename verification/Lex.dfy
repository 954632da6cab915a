/** The order of Go strings (`strings.Compare`, `sort.Strings`). */
module Lex {

  predicate Less(a: string, b: string) {
    b != [] && (a == [] || a[0] < b[0] || (a[0] == b[0] && Less(a[1..], b[1..])))
  }

  /** Equal up to some place, where the first string ends or has the smaller character. */
  ghost predicate Before(a: string, b: string) {
    exists n | 0 <= n <= |a| && n < |b| :: a[..n] == b[..n] && (n == |a| || a[n] < b[n])
  }

  lemma {:induction false} LessIs(a: string, b: string)
    ensures Less(a, b) <==> Before(a, b)
  {
    if a != [] && b != [] && a[0] == b[0] {
      LessIs(a[1..], b[1..]);
      if Before(a[1..], b[1..]) {
        var n :| 0 <= n <= |a[1..]| && n < |b[1..]| && a[1..][..n] == b[1..][..n] && (n == |a[1..]| || a[1..][n] < b[1..][n]);
        assert a[..n + 1] == [a[0]] + a[1..][..n] && b[..n + 1] == [b[0]] + b[1..][..n];
      }
      if Before(a, b) {
        var n :| 0 <= n <= |a| && n < |b| && a[..n] == b[..n] && (n == |a| || a[n] < b[n]);
        assert n > 0 && a[1..][..n - 1] == a[..n][1..] && b[1..][..n - 1] == b[..n][1..];
      }
    } else if a != [] && b != [] {
      if Before(a, b) {
        var n :| 0 <= n <= |a| && n < |b| && a[..n] == b[..n] && (n == |a| || a[n] < b[n]);
        assert n == 0;
      }
      assert a[..0] == b[..0];
    } else if b != [] {
      assert a[..0] == b[..0];
    }
  }

  lemma {:induction false} Irreflexive(a: string)
    ensures !Less(a, a)
  {
    if a != [] {
      Irreflexive(a[1..]);
    }
  }

  lemma {:induction false} Transitive(a: string, b: string, c: string)
    requires Less(a, b) && Less(b, c)
    ensures Less(a, c)
  {
    if a != [] && a[0] == b[0] && b[0] == c[0] {
      Transitive(a[1..], b[1..], c[1..]);
    }
  }

  lemma {:induction false} Total(a: string, b: string)
    ensures Less(a, b) || a == b || Less(b, a)
  {
    if a != [] && b != [] && a[0] == b[0] {
      Total(a[1..], b[1..]);
      assert a == [a[0]] + a[1..] && b == [b[0]] + b[1..];
    }
  }

  predicate StrictlySorted(s: seq<string>) {
    forall i, j | 0 <= i < j < |s| :: Less(s[i], s[j])
  }
}
