/** The live index of keystore accounts (accounts/keystore/account_cache.go): a sorted list and a by-address index. */
module AccountCache {
  import opened Wrappers
  import opened Url
  import opened Accounts
  import Lex

  datatype FindError = NoMatch | Ambiguous(matches: seq<Account>)

  /** How often an account occurs. */
  ghost function Count(accs: seq<Account>, x: Account): nat {
    multiset(accs)[x]
  }

  /** `byAddr[a]`, where a missing bucket reads as empty. */
  function Bucket(byAddr: map<Address, seq<Account>>, a: Address): seq<Account> {
    if a in byAddr then byAddr[a] else []
  }

  /** The buckets hold, as multisets, exactly the accounts of the list, each under its address; none is empty. */
  ghost predicate Indexed(all: seq<Account>, byAddr: map<Address, seq<Account>>) {
    && (forall a | a in byAddr :: byAddr[a] != [])
    && (forall a, x | x in multiset(Bucket(byAddr, a)) :: x.address == a)
    && (forall x: Account :: Count(Bucket(byAddr, x.address), x) == Count(all, x))
  }

  /** Where `removeAccount` cuts: the first occurrence, or the end. */
  function First(accs: seq<Account>, x: Account): (i: nat)
    ensures i <= |accs| && (i < |accs| ==> accs[i] == x) && x !in accs[..i]
  {
    if accs == [] || accs[0] == x then 0 else First(accs[1..], x) + 1
  }

  function Without(accs: seq<Account>, x: Account): seq<Account> {
    var i := First(accs, x);
    if i == |accs| then accs else accs[..i] + accs[i + 1..]
  }

  /** `removeAccount`. */
  method RemoveAccount(slice: seq<Account>, elem: Account) returns (r: seq<Account>)
    ensures r == Without(slice, elem)
  {
    for i := 0 to |slice|
      invariant elem !in slice[..i]
    {
      if slice[i] == elem {
        FirstIs(slice, elem, i);
        return slice[..i] + slice[i + 1..];
      }
    }
    FirstIs(slice, elem, |slice|);
    r := slice;
  }

  lemma {:induction false} FirstIs(accs: seq<Account>, x: Account, i: nat)
    requires i <= |accs| && x !in accs[..i] && (i < |accs| ==> accs[i] == x)
    ensures First(accs, x) == i
  {
    if i > 0 {
      assert accs[0] in accs[..i];
      assert accs[1..][..i - 1] == accs[1..i];
      FirstIs(accs[1..], x, i - 1);
    }
  }

  /** Removing takes one occurrence away, if there is one. */
  lemma WithoutCounts(accs: seq<Account>, x: Account)
    ensures multiset(Without(accs, x)) == multiset(accs) - multiset{x}
  {
    var i := First(accs, x);
    if i < |accs| {
      assert accs == accs[..i] + [accs[i]] + accs[i + 1..];
    } else {
      assert accs[..i] == accs;
    }
  }

  ghost predicate OneScheme(accs: seq<Account>) {
    forall i, j | 0 <= i < j < |accs| :: accs[i].url.scheme == accs[j].url.scheme
  }

  /** The search of `deleteByFile`: right where there is one scheme, for then the list is sorted by path. */
  method SearchPath(accs: seq<Account>, path: string) returns (i: nat)
    requires SortedByUrl(accs)
    ensures i <= |accs|
    ensures OneScheme(accs) ==> forall j | 0 <= j < |accs| :: !Lex.Less(accs[j].url.path, path) <==> i <= j
  {
    UrlsSorted(accs);
    var f := (j: nat) => j < |accs| && !Lex.Less(accs[j].url.path, path);
    if OneScheme(accs) {
      forall j: nat, k: nat | j <= k < |accs| && f(j)
        ensures f(k)
      {
        FromSomeIndex(Urls(accs), URL(accs[j].url.scheme, path), j, k);
      }
    }
    i := Search(|accs|, f);
    assert forall j: nat | j < |accs| :: f(j) <==> !Lex.Less(accs[j].url.path, path);
  }

  lemma PathAbsent(accs: seq<Account>, path: string, i: nat)
    requires SortedByUrl(accs) && OneScheme(accs) && i <= |accs|
    requires forall j | 0 <= j < |accs| :: !Lex.Less(accs[j].url.path, path) <==> i <= j
    requires i < |accs| ==> accs[i].url.path != path
    ensures forall x | x in accs :: x.url.path != path
  {
    forall k | 0 <= k < |accs|
      ensures accs[k].url.path != path
    {
      if i <= k && accs[k].url.path == path {
        Lex.Total(accs[i].url.path, path);
        assert false;
      }
      Lex.Irreflexive(path);
    }
  }

  /** The account that `deleteByFile` removes, or the end of the list. */
  method FindFile(accs: seq<Account>, path: string) returns (i: nat)
    requires SortedByUrl(accs)
    ensures i <= |accs| && (i < |accs| ==> accs[i].url.path == path)
    ensures OneScheme(accs) && i == |accs| ==> forall x | x in accs :: x.url.path != path
  {
    i := SearchPath(accs, path);
    if i == |accs| || accs[i].url.path != path {
      if OneScheme(accs) {
        PathAbsent(accs, path, i);
      }
      i := |accs|;
    }
  }

  /** The account stands before every other account with its URL. */
  ghost predicate FirstWithUrl(accs: seq<Account>, x: Account) {
    exists i | 0 <= i < |accs| :: accs[i] == x && forall j | 0 <= j < i :: Less(accs[j].url, x.url)
  }

  /** Of two accounts with one URL only one can be the first with it. */
  lemma OneFirst(accs: seq<Account>, x: Account, y: Account)
    requires FirstWithUrl(accs, x) && x.url == y.url && x != y
    ensures !FirstWithUrl(accs, y)
  {
    Irreflexive(x.url);
  }

  lemma FoundOrNot(accs: seq<Account>, x: Account, i: nat)
    requires i <= |accs| && forall j | 0 <= j < |accs| :: !Less(accs[j].url, x.url) <==> i <= j
    ensures FirstWithUrl(accs, x) <==> i < |accs| && accs[i] == x
  {
    Irreflexive(x.url);
  }

  /** The index after one account is added to its bucket and to the list. */
  lemma IndexedAdd(all: seq<Account>, byAddr: map<Address, seq<Account>>, x: Account, all': seq<Account>, byAddr': map<Address, seq<Account>>)
    requires Indexed(all, byAddr) && multiset(all') == multiset(all) + multiset{x}
    requires byAddr' == byAddr[x.address := Bucket(byAddr, x.address) + [x]]
    ensures Indexed(all', byAddr')
  {
    forall y: Account
      ensures Count(Bucket(byAddr', y.address), y) == Count(all', y)
    {
      assert Count(Bucket(byAddr, y.address), y) == Count(all, y);
    }
    forall a, y | y in multiset(Bucket(byAddr', a))
      ensures y.address == a
    {
      if y != x || a != x.address {
        assert y in multiset(Bucket(byAddr, a));
      }
    }
  }

  lemma InsertCounts(all: seq<Account>, x: Account, i: nat)
    requires i <= |all|
    ensures multiset(all[..i] + [x] + all[i..]) == multiset(all) + multiset{x} && x in all[..i] + [x] + all[i..]
  {
    assert all == all[..i] + all[i..];
    assert (all[..i] + [x] + all[i..])[i] == x;
  }

  lemma InsertFirst(all: seq<Account>, x: Account, i: nat)
    requires i <= |all| && forall j | 0 <= j < i :: Less(all[j].url, x.url)
    ensures FirstWithUrl(all[..i] + [x] + all[i..], x)
  {
    var r := all[..i] + [x] + all[i..];
    assert r[i] == x && forall j | 0 <= j < i :: r[j] == all[j];
  }

  lemma AddStep(all: seq<Account>, byAddr: map<Address, seq<Account>>, x: Account, i: nat)
    requires SortedByUrl(all) && Indexed(all, byAddr) && i <= |all|
    requires forall j | 0 <= j < |all| :: !Less(all[j].url, x.url) <==> i <= j
    ensures var all' := all[..i] + [x] + all[i..];
            SortedByUrl(all') && multiset(all') == multiset(all) + multiset{x} && FirstWithUrl(all', x)
            && Indexed(all', byAddr[x.address := Bucket(byAddr, x.address) + [x]])
  {
    var all' := all[..i] + [x] + all[i..];
    InsertSorted(all, x, i);
    InsertCounts(all, x, i);
    InsertFirst(all, x, i);
    IndexedAdd(all, byAddr, x, all', byAddr[x.address := Bucket(byAddr, x.address) + [x]]);
  }

  /** A bucket reassigned, or dropped when it is empty. */
  function SetBucket(byAddr: map<Address, seq<Account>>, a: Address, ba: seq<Account>): map<Address, seq<Account>> {
    if ba == [] then byAddr - {a} else byAddr[a := ba]
  }

  lemma SetBucketIs(byAddr: map<Address, seq<Account>>, a: Address, ba: seq<Account>, b: Address)
    ensures Bucket(SetBucket(byAddr, a, ba), b) == if b == a then ba else Bucket(byAddr, b)
  {
  }

  /** The index after one account is removed from its bucket and from the list. */
  lemma IndexedRemove(all: seq<Account>, byAddr: map<Address, seq<Account>>, x: Account, all': seq<Account>)
    requires Indexed(all, byAddr) && multiset(all') == multiset(all) - multiset{x}
    ensures Indexed(all', SetBucket(byAddr, x.address, Without(Bucket(byAddr, x.address), x)))
  {
    var bucket := Bucket(byAddr, x.address);
    var byAddr' := SetBucket(byAddr, x.address, Without(bucket, x));
    WithoutCounts(bucket, x);
    forall y: Account
      ensures Count(Bucket(byAddr', y.address), y) == Count(all', y)
    {
      SetBucketIs(byAddr, x.address, Without(bucket, x), y.address);
      RemoveCounts(bucket, Bucket(byAddr, y.address), all, x, y);
    }
    forall a, y | y in multiset(Bucket(byAddr', a))
      ensures y.address == a
    {
      SetBucketIs(byAddr, x.address, Without(bucket, x), a);
      assert y in multiset(Bucket(byAddr, a));
    }
  }

  lemma RemoveCounts(bucket: seq<Account>, b: seq<Account>, all: seq<Account>, x: Account, y: Account)
    requires Count(b, y) == Count(all, y)
    requires y.address == x.address ==> b == bucket
    ensures (if y.address == x.address then multiset(bucket) - multiset{x} else multiset(b))[y] == (multiset(all) - multiset{x})[y]
  {
  }

  lemma DeleteStep(all: seq<Account>, byAddr: map<Address, seq<Account>>, x: Account)
    requires SortedByUrl(all) && Indexed(all, byAddr)
    ensures SortedByUrl(Without(all, x)) && multiset(Without(all, x)) == multiset(all) - multiset{x}
    ensures Indexed(Without(all, x), SetBucket(byAddr, x.address, Without(Bucket(byAddr, x.address), x)))
  {
    WithoutCounts(all, x);
    if First(all, x) < |all| {
      CutSorted(all, First(all, x));
    }
    IndexedRemove(all, byAddr, x, Without(all, x));
  }

  lemma CutStep(all: seq<Account>, byAddr: map<Address, seq<Account>>, i: nat)
    requires SortedByUrl(all) && Indexed(all, byAddr) && i < |all|
    ensures var x, all' := all[i], all[..i] + all[i + 1..];
            && SortedByUrl(all') && OneGone(all, all', x.url.path)
            && Indexed(all', SetBucket(byAddr, x.address, Without(Bucket(byAddr, x.address), x)))
  {
    var x, all' := all[i], all[..i] + all[i + 1..];
    CutSorted(all, i);
    assert all == all[..i] + [x] + all[i + 1..];
    assert x in all && multiset(all') == multiset(all) - multiset{x};
    IndexedRemove(all, byAddr, x, all');
  }

  /** Not ruled out by the address asked for. */
  predicate Suits(x: Account, a: Account) {
    a.address == ZERO || x.address == a.address
  }

  /** The answer where no file decides: the account if it is the only one that suits, once, and else why not. */
  ghost predicate IsOnly(all: seq<Account>, a: Account, r: Result<Account, FindError>) {
    match r
    case Ok(x) => Count(all, x) == 1 && forall y :: y in all && Suits(y, a) <==> y == x
    case Err(NoMatch) => forall y | y in all :: !Suits(y, a)
    case Err(Ambiguous(ms)) => |ms| > 1 && SortedByUrl(ms) && forall y | Suits(y, a) :: Count(ms, y) == Count(all, y)
  }

  /** The list `find` searches: the accounts that suit, as often as the cache has them. */
  ghost predicate Candidates(all: seq<Account>, a: Account, matches: seq<Account>) {
    && (forall x :: x in matches <==> x in all && Suits(x, a))
    && (forall x | Suits(x, a) :: Count(matches, x) == Count(all, x))
  }

  lemma CandidatesAre(all: seq<Account>, byAddr: map<Address, seq<Account>>, a: Account)
    requires Indexed(all, byAddr)
    ensures Candidates(all, a, if a.address != ZERO then Bucket(byAddr, a.address) else all)
  {
    var matches := if a.address != ZERO then Bucket(byAddr, a.address) else all;
    forall x
      ensures x in matches <==> x in all && Suits(x, a)
      ensures Suits(x, a) ==> Count(matches, x) == Count(all, x)
    {
      assert Count(Bucket(byAddr, x.address), x) == Count(all, x);
      assert x in matches <==> x in multiset(matches);
      assert x in all <==> x in multiset(all);
    }
  }

  /** The last step of `find`, by the number of candidates. */
  method PickOnly(matches: seq<Account>, ghost all: seq<Account>, ghost a: Account) returns (r: Result<Account, FindError>)
    requires Candidates(all, a, matches)
    ensures IsOnly(all, a, r)
  {
    if |matches| == 1 {
      assert matches == [matches[0]];
      assert matches[0] in matches && Count(matches, matches[0]) == 1;
      return Ok(matches[0]);
    }
    if |matches| == 0 {
      return Err(NoMatch);
    }
    var sorted := SortByUrl(matches);
    assert |sorted| == |multiset(sorted)| == |matches|;
    r := Err(Ambiguous(sorted));
  }

  method PickByUrl(matches: seq<Account>, url: URL) returns (r: Option<Account>)
    ensures r.None? ==> forall x | x in matches :: x.url != url
    ensures r.Some? ==> r.value in matches && r.value.url == url
  {
    for i := 0 to |matches|
      invariant forall j | 0 <= j < i :: matches[j].url != url
    {
      if matches[i].url == url {
        return Some(matches[i]);
      }
    }
    r := None;
  }

  /** One account with the path was taken away. */
  ghost predicate OneGone(was: seq<Account>, all: seq<Account>, path: string) {
    exists x :: x in was && x.url.path == path && multiset(all) == multiset(was) - multiset{x}
  }

  /** `sort.Sort` of the matches. */
  method SortByUrl(ms: seq<Account>) returns (r: seq<Account>)
    ensures SortedByUrl(r) && multiset(r) == multiset(ms)
  {
    r := [];
    for i := 0 to |ms|
      invariant SortedByUrl(r) && multiset(r) == multiset(ms[..i])
    {
      var k := SearchUrl(r, ms[i].url);
      InsertSorted(r, ms[i], k);
      InsertCounts(r, ms[i], k);
      assert ms[..i + 1] == ms[..i] + [ms[i]];
      r := r[..k] + [ms[i]] + r[k..];
    }
    assert ms[..|ms|] == ms;
  }

  class AccountCache {
    var all: seq<Account>
    var byAddr: map<Address, seq<Account>>

    ghost predicate Valid()
      reads this
    {
      SortedByUrl(all) && Indexed(all, byAddr)
    }

    constructor ()
      ensures Valid() && all == []
    {
      all, byAddr := [], map[];
    }

    /** `add`: one more occurrence, unless the account is the first with its URL. */
    method Add(newAccount: Account)
      requires Valid()
      modifies this
      ensures Valid()
      ensures multiset(all) == multiset(old(all)) + (if FirstWithUrl(old(all), newAccount) then multiset{} else multiset{newAccount})
      ensures FirstWithUrl(all, newAccount)
    {
      var i := SearchUrl(all, newAccount.url);
      FoundOrNot(all, newAccount, i);
      if i < |all| && all[i] == newAccount {
        return;
      }
      AddStep(all, byAddr, newAccount, i);
      all := all[..i] + [newAccount] + all[i..];
      byAddr := byAddr[newAccount.address := Bucket(byAddr, newAccount.address) + [newAccount]];
    }

    /** `delete`: one occurrence less, if there is one. */
    method Delete(removed: Account)
      requires Valid()
      modifies this
      ensures Valid() && multiset(all) == multiset(old(all)) - multiset{removed}
    {
      DeleteStep(all, byAddr, removed);
      all := RemoveAccount(all, removed);
      var ba := RemoveAccount(Bucket(byAddr, removed.address), removed);
      byAddr := SetBucket(byAddr, removed.address, ba);
    }

    /** `deleteByFile`: an account with the path goes, or nothing; on one URL scheme one goes if there is one. */
    method DeleteByFile(path: string)
      requires Valid()
      modifies this
      ensures Valid()
      ensures (all == old(all) && byAddr == old(byAddr)) || OneGone(old(all), all, path)
      ensures OneScheme(old(all)) && (exists x :: x in old(all) && x.url.path == path) ==> OneGone(old(all), all, path)
    {
      var i := FindFile(all, path);
      if i < |all| {
        var removed := all[i];
        CutStep(all, byAddr, i);
        all := all[..i] + all[i + 1..];
        var ba := RemoveAccount(Bucket(byAddr, removed.address), removed);
        byAddr := SetBucket(byAddr, removed.address, ba);
      }
    }

    /** `find`: the account with the given file, else the only account with the given address. */
    method Find(a: Account, complete: string -> string) returns (r: Result<Account, FindError>)
      requires Valid()
      ensures var url := URL(a.url.scheme, complete(a.url.path));
              if a.url.path != "" && exists x :: x in all && Suits(x, a) && x.url == url
              then r.Ok? && r.value in all && Suits(r.value, a) && r.value.url == url
              else if a.url.path != "" && a.address == ZERO then r == Err(NoMatch)
              else IsOnly(all, a, r)
    {
      var matches := if a.address != ZERO then Bucket(byAddr, a.address) else all;
      CandidatesAre(all, byAddr, a);
      if a.url.path != "" {
        var x := PickByUrl(matches, URL(a.url.scheme, complete(a.url.path)));
        if x.Some? {
          return Ok(x.value);
        }
        if a.address == ZERO {
          return Err(NoMatch);
        }
      }
      r := PickOnly(matches, all, a);
    }
  }

  /** Two accounts with one URL, the first of them added again: it is then in the cache twice. */
  method AddedTwice(x: Account, y: Account) returns (cache: AccountCache)
    requires x.url == y.url && x != y
    ensures fresh(cache) && cache.Valid() && Count(cache.all, x) == 2
  {
    cache := new AccountCache();
    cache.Add(x);
    cache.Add(y);
    OneFirst(cache.all, y, x);
    cache.Add(x);
  }
}
