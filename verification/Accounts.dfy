/** Keystore accounts in the order of their URLs (accounts/accounts.go, accounts/url.go). */
module Accounts {
  import opened Url

  type Address = nat

  /** The zero address stands for "no address given". */
  const ZERO: Address := 0

  datatype Account = Account(address: Address, url: URL)

  function Urls(accs: seq<Account>): (us: seq<URL>)
    ensures |us| == |accs| && forall i | 0 <= i < |accs| :: us[i] == accs[i].url
  {
    if accs == [] then [] else [accs[0].url] + Urls(accs[1..])
  }

  ghost predicate SortedByUrl(accs: seq<Account>) {
    forall i, j | 0 <= i < j < |accs| :: !Less(accs[j].url, accs[i].url)
  }

  lemma CutSorted(accs: seq<Account>, i: nat)
    requires SortedByUrl(accs) && i < |accs|
    ensures SortedByUrl(accs[..i] + accs[i + 1..])
  {
  }

  lemma InsertSorted(accs: seq<Account>, x: Account, i: nat)
    requires SortedByUrl(accs) && i <= |accs|
    requires forall j | 0 <= j < |accs| :: !Less(accs[j].url, x.url) <==> i <= j
    ensures SortedByUrl(accs[..i] + [x] + accs[i..])
  {
    forall j | 0 <= j < i
      ensures !Less(x.url, accs[j].url)
    {
      Asymmetric(accs[j].url, x.url);
    }
  }

  lemma UrlsSorted(accs: seq<Account>)
    requires SortedByUrl(accs)
    ensures Sorted(Urls(accs))
  {
  }

  /** The first account at or after a URL. */
  method SearchUrl(accs: seq<Account>, u: URL) returns (i: nat)
    requires SortedByUrl(accs)
    ensures i <= |accs| && forall j | 0 <= j < |accs| :: !Less(accs[j].url, u) <==> i <= j
  {
    UrlsSorted(accs);
    var f := (j: nat) => j < |accs| && !Less(accs[j].url, u);
    forall j: nat, k: nat | j <= k < |accs| && f(j)
      ensures f(k)
    {
      FromSomeIndex(Urls(accs), u, j, k);
    }
    assert Rising(|accs|, f);
    i := Search(|accs|, f);
    assert forall j: nat | j < |accs| :: f(j) <==> !Less(accs[j].url, u);
  }
}
