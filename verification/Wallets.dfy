/** Keystore wallets and the manager's merged list: `refreshWallets`, its events, and their replay by `merge` and `drop`. */
module Wallets {
  import opened Url
  import opened Accounts

  /** A keystore wallet is its one account. */
  type Wallet = Account

  datatype Event = Arrived(wallet: Wallet) | Dropped(wallet: Wallet)

  /** Sorted by URL, no URL twice. */
  ghost predicate Strict(ws: seq<Wallet>) {
    forall i, j | 0 <= i < j < |ws| :: Less(ws[i].url, ws[j].url)
  }

  ghost function Set(ws: seq<Wallet>): set<Wallet> {
    set w | w in ws
  }

  // The manager's list.

  /** The first index at or after a URL. */
  function Lower(ws: seq<Wallet>, u: URL): (n: nat)
    ensures n <= |ws| && (forall j | 0 <= j < n :: Less(ws[j].url, u)) && (n < |ws| ==> !Less(ws[n].url, u))
  {
    if ws == [] || !Less(ws[0].url, u) then 0 else Lower(ws[1..], u) + 1
  }

  function Merge(ws: seq<Wallet>, w: Wallet): seq<Wallet> {
    var n := Lower(ws, w.url);
    ws[..n] + [w] + ws[n..]
  }

  function Drop(ws: seq<Wallet>, w: Wallet): seq<Wallet> {
    var n := Lower(ws, w.url);
    if n == |ws| then ws else ws[..n] + ws[n + 1..]
  }

  function Update(ws: seq<Wallet>, e: Event): seq<Wallet> {
    match e
    case Arrived(w) => Merge(ws, w)
    case Dropped(w) => Drop(ws, w)
  }

  function Replay(ws: seq<Wallet>, events: seq<Event>): seq<Wallet>
    decreases |events|
  {
    if events == [] then ws else Replay(Update(ws, events[0]), events[1..])
  }

  /** `Lower` is the one index that splits the list at the URL. */
  lemma {:induction false} LowerIs(ws: seq<Wallet>, u: URL, n: nat)
    requires n <= |ws| && forall j | 0 <= j < |ws| :: !Less(ws[j].url, u) <==> n <= j
    ensures n == Lower(ws, u)
  {
    var m := Lower(ws, u);
    assert m < |ws| ==> !Less(ws[m].url, u);
    assert n < |ws| ==> !Less(ws[n].url, u);
  }

  /** The manager: `am.wallets` and the two event cases of `update`. */
  class Manager {
    var wallets: seq<Wallet>

    constructor ()
      ensures wallets == []
    {
      wallets := [];
    }

    method HandleEvent(e: Event)
      requires SortedByUrl(wallets)
      modifies this
      ensures wallets == Update(old(wallets), e) && SortedByUrl(wallets)
    {
      var n := SearchUrl(wallets, e.wallet.url);
      LowerIs(wallets, e.wallet.url, n);
      match e
      case Arrived(w) =>
        InsertSorted(wallets, w, n);
        if n == |wallets| {
          wallets := wallets + [w];
          assert wallets == Merge(old(wallets), w);
        } else {
          wallets := wallets[..n] + ([w] + wallets[n..]);
          assert wallets == Merge(old(wallets), w);
        }
      case Dropped(w) =>
        if n != |wallets| {
          CutSorted(wallets, n);
          wallets := wallets[..n] + wallets[n + 1..];
        }
    }

    /** The loop of `update` over events in the order they were sent. */
    method HandleEvents(events: seq<Event>)
      requires SortedByUrl(wallets)
      modifies this
      ensures wallets == Replay(old(wallets), events) && SortedByUrl(wallets)
    {
      for i := 0 to |events|
        invariant SortedByUrl(wallets) && Replay(wallets, events[i..]) == Replay(old(wallets), events)
      {
        assert events[i..][1..] == events[i + 1..];
        HandleEvent(events[i]);
      }
    }
  }

  // The keystore's list.

  /** `refreshWallets`: the new list of wallets and the events, walking both sorted lists together. */
  function Refresh(was: seq<Wallet>, accs: seq<Wallet>): (seq<Wallet>, seq<Event>)
    decreases |was| + |accs|
  {
    if accs == [] then
      if was == [] then ([], []) else Send([], [Dropped(was[0])], Refresh(was[1..], accs))
    else if was != [] && Less(was[0].url, accs[0].url) then Send([], [Dropped(was[0])], Refresh(was[1..], accs))
    else if was == [] || Less(accs[0].url, was[0].url) then Send([accs[0]], [Arrived(accs[0])], Refresh(was, accs[1..]))
    else if was[0] == accs[0] then Send([was[0]], [], Refresh(was[1..], accs[1..]))
    else Refresh(was, accs[1..])
  }

  /** Wallets and events in front of what follows. */
  function Send(ws: seq<Wallet>, es: seq<Event>, rest: (seq<Wallet>, seq<Event>)): (seq<Wallet>, seq<Event>) {
    (ws + rest.0, es + rest.1)
  }

  lemma {:induction false} SendSend(ws: seq<Wallet>, es: seq<Event>, ws': seq<Wallet>, es': seq<Event>, rest: (seq<Wallet>, seq<Event>))
    ensures Send(ws, es, Send(ws', es', rest)) == Send(ws + ws', es + es', rest)
  {
    assert ws + (ws' + rest.0) == ws + ws' + rest.0;
    assert es + (es' + rest.1) == es + es' + rest.1;
  }

  lemma {:induction false} SendNone(rest: (seq<Wallet>, seq<Event>))
    ensures Send([], [], rest) == rest && Send(rest.0, rest.1, ([], [])) == rest
  {
    assert [] + rest.0 == rest.0 + [] == rest.0 && [] + rest.1 == rest.1 + [] == rest.1;
  }

  class KeyStore {
    var wallets: seq<Wallet>

    constructor ()
      ensures wallets == []
    {
      wallets := [];
    }

    method RefreshWallets(accs: seq<Wallet>) returns (events: seq<Event>)
      modifies this
      ensures (wallets, events) == Refresh(old(wallets), accs)
    {
      var ws: seq<Wallet> := [];
      events := [];
      SendNone(Refresh(wallets, accs));
      assert accs[0..] == accs;
      for i := 0 to |accs|
        invariant Refresh(old(wallets), accs) == Send(ws, events, Refresh(wallets, accs[i..]))
      {
        var account := accs[i];
        while |wallets| > 0 && Less(wallets[0].url, account.url)
          invariant Refresh(old(wallets), accs) == Send(ws, events, Refresh(wallets, accs[i..]))
          decreases |wallets|
        {
          SendSend(ws, events, [], [Dropped(wallets[0])], Refresh(wallets[1..], accs[i..]));
          assert ws + [] == ws;
          events := events + [Dropped(wallets[0])];
          wallets := wallets[1..];
        }
        assert accs[i..][1..] == accs[i + 1..];
        if |wallets| == 0 || Less(account.url, wallets[0].url) {
          SendSend(ws, events, [account], [Arrived(account)], Refresh(wallets, accs[i + 1..]));
          events := events + [Arrived(account)];
          ws := ws + [account];
        } else if wallets[0] == account {
          SendSend(ws, events, [account], [], Refresh(wallets[1..], accs[i + 1..]));
          assert events + [] == events;
          ws := ws + [wallets[0]];
          wallets := wallets[1..];
        }
      }
      ghost var left := wallets;
      for k := 0 to |wallets|
        invariant wallets == left
        invariant Refresh(old(wallets), accs) == Send(ws, events, Refresh(left[k..], []))
      {
        SendSend(ws, events, [], [Dropped(wallets[k])], Refresh(left[k + 1..], []));
        assert left[k..][1..] == left[k + 1..] && ws + [] == ws;
        events := events + [Dropped(wallets[k])];
      }
      SendNone((ws, events));
      wallets := ws;
    }
  }

  // What the two lists have in common.

  /** A strictly sorted list is determined by its wallets. */
  lemma {:induction false} StrictUnique(a: seq<Wallet>, b: seq<Wallet>)
    requires Strict(a) && Strict(b) && Set(a) == Set(b)
    ensures a == b
  {
    assert a != [] ==> a[0] in Set(b);
    assert b != [] ==> b[0] in Set(a);
    if a != [] {
      SmallestFirst(a, b);
      TailSet(a);
      TailSet(b);
      StrictUnique(a[1..], b[1..]);
    }
  }

  lemma {:induction false} SmallestFirst(a: seq<Wallet>, b: seq<Wallet>)
    requires Strict(a) && Strict(b) && a != [] && b != [] && a[0] in b && b[0] in a
    ensures a[0] == b[0]
  {
    OneWay(a[0].url, b[0].url);
  }

  lemma {:induction false} OneWay(u: URL, v: URL)
    ensures !(Less(u, v) && Less(v, u))
  {
    if Less(u, v) {
      Asymmetric(u, v);
    }
  }

  /** The first wallet is not among the rest. */
  lemma {:induction false} TailSet(a: seq<Wallet>)
    requires Strict(a) && a != []
    ensures Set(a[1..]) == Set(a) - {a[0]}
  {
    Irreflexive(a[0].url);
  }

  /** No wallet of `a` has the URL of a wallet of `b`. */
  ghost predicate Apart(a: set<Wallet>, b: seq<Wallet>) {
    forall x, i | x in a && 0 <= i < |b| :: x.url != b[i].url
  }

  lemma {:induction false} MergeAdds(ws: seq<Wallet>, w: Wallet)
    requires Strict(ws) && Apart({w}, ws)
    ensures Strict(Merge(ws, w)) && Set(Merge(ws, w)) == Set(ws) + {w}
  {
    var n := Lower(ws, w.url);
    forall j | n <= j < |ws|
      ensures Less(w.url, ws[j].url)
    {
      Total(w.url, ws[n].url);
      assert w in {w};
      if n < j {
        Transitive(w.url, ws[n].url, ws[j].url);
      }
    }
    MergeSet(ws, w, n);
  }

  lemma {:induction false} MergeSet(ws: seq<Wallet>, w: Wallet, n: nat)
    requires n <= |ws|
    ensures Set(ws[..n] + [w] + ws[n..]) == Set(ws) + {w}
  {
    var r := ws[..n] + [w] + ws[n..];
    assert r[n] == w && ws == ws[..n] + ws[n..];
    forall x
      ensures x in r <==> x in ws || x == w
    {
    }
  }

  /** `merge` always adds, keeps the order, and puts the wallet in front of any with its URL. */
  lemma {:induction false} MergeAlways(ws: seq<Wallet>, w: Wallet)
    requires SortedByUrl(ws)
    ensures multiset(Merge(ws, w)) == multiset(ws) + multiset{w} && SortedByUrl(Merge(ws, w))
    ensures exists n | 0 <= n <= |ws| :: Merge(ws, w) == ws[..n] + [w] + ws[n..] && forall j | 0 <= j < |ws| :: j < n <==> Less(ws[j].url, w.url)
  {
    var n := Lower(ws, w.url);
    LowerSplits(ws, w.url);
    InsertSorted(ws, w, n);
    assert ws == ws[..n] + ws[n..];
  }

  /** `drop` takes away the first wallet at or after the URL, whichever it is, if there is one. */
  lemma {:induction false} DropAlways(ws: seq<Wallet>, w: Wallet)
    requires SortedByUrl(ws)
    ensures (forall j | 0 <= j < |ws| :: Less(ws[j].url, w.url)) ==> Drop(ws, w) == ws
    ensures forall n | 0 <= n < |ws| && !Less(ws[n].url, w.url) && (forall j | 0 <= j < n :: Less(ws[j].url, w.url)) :: Drop(ws, w) == ws[..n] + ws[n + 1..]
  {
    var n := Lower(ws, w.url);
    assert forall j | 0 <= j < n :: Less(ws[j].url, w.url);
  }

  lemma LowerSplits(ws: seq<Wallet>, u: URL)
    requires SortedByUrl(ws)
    ensures forall j | 0 <= j < |ws| :: j < Lower(ws, u) <==> Less(ws[j].url, u)
  {
    var n := Lower(ws, u);
    UrlsSorted(ws);
    forall j | n <= j < |ws|
      ensures !Less(ws[j].url, u)
    {
      FromSomeIndex(Urls(ws), u, n, j);
    }
  }

  lemma {:induction false} DropTakes(ws: seq<Wallet>, w: Wallet)
    requires Strict(ws) && w in ws
    ensures Strict(Drop(ws, w)) && Set(Drop(ws, w)) == Set(ws) - {w}
  {
    var n := Lower(ws, w.url);
    var k :| 0 <= k < |ws| && ws[k] == w;
    Irreflexive(w.url);
    assert n == k;
    DropSet(ws, n);
  }

  lemma {:induction false} DropSet(ws: seq<Wallet>, n: nat)
    requires Strict(ws) && n < |ws|
    ensures Strict(ws[..n] + ws[n + 1..]) && Set(ws[..n] + ws[n + 1..]) == Set(ws) - {ws[n]}
  {
    var r := ws[..n] + ws[n + 1..];
    Irreflexive(ws[n].url);
    forall x
      ensures x in r <==> x in ws && x != ws[n]
    {
      if x in ws && x != ws[n] {
        var j :| 0 <= j < |ws| && ws[j] == x;
        assert x == r[if j < n then j else j - 1];
      }
    }
  }

  /** Dropping a wallet that is absent does nothing exactly when it sorts after the whole list; else the next wallet goes. */
  lemma {:induction false} AbsentDrop(ws: seq<Wallet>, w: Wallet)
    requires Strict(ws) && Apart({w}, ws)
    ensures Drop(ws, w) == ws <==> forall i | 0 <= i < |ws| :: Less(ws[i].url, w.url)
  {
    var n := Lower(ws, w.url);
    if n < |ws| {
      assert |Drop(ws, w)| == |ws| - 1;
    }
  }

  /** A wallet dropped that is not there: the next one goes in its place. */
  lemma AbsentDropTakesNext(absent: Wallet, next: Wallet)
    requires Less(absent.url, next.url)
    ensures Drop([next], absent) == []
  {
    Asymmetric(absent.url, next.url);
  }

  /** A wallet before all the wallets of a strict list has none of their URLs. */
  lemma {:induction false} BeforeAll(w: Wallet, ws: seq<Wallet>)
    requires Strict(ws) && (ws == [] || Less(w.url, ws[0].url))
    ensures Apart({w}, ws)
  {
    forall i | 0 <= i < |ws|
      ensures w.url != ws[i].url
    {
      if i > 0 {
        Transitive(w.url, ws[0].url, ws[i].url);
      }
      Irreflexive(w.url);
    }
  }

  lemma {:induction false} AheadOfRest(ws: seq<Wallet>)
    requires Strict(ws) && ws != []
    ensures Strict(ws[1..]) && Apart({ws[0]}, ws[1..])
  {
    BeforeAll(ws[0], ws[1..]);
  }

  lemma {:induction false} ApartUnion(a: set<Wallet>, b: set<Wallet>, ws: seq<Wallet>)
    requires Apart(a, ws) && Apart(b, ws)
    ensures Apart(a + b, ws)
  {
  }

  lemma {:induction false} ApartMerged(w: Wallet, merged: seq<Wallet>, others: set<Wallet>, was: seq<Wallet>)
    requires Set(merged) == others + Set(was) && Apart({w}, was) && forall x | x in others :: x.url != w.url
    ensures Apart({w}, merged)
  {
    forall i | 0 <= i < |merged|
      ensures merged[i].url != w.url
    {
      assert merged[i] in Set(merged);
      if merged[i] in was {
        var k :| 0 <= k < |was| && was[k] == merged[i];
        assert w in {w};
      }
    }
  }

  /**
   Replaying the events of a refresh on a merged list turns the old wallets in it into the new ones and leaves the
   wallets of other backends alone.
   */
  lemma {:induction false} EventsReplayed(was: seq<Wallet>, accs: seq<Wallet>, merged: seq<Wallet>, others: set<Wallet>)
    requires Strict(was) && Strict(accs) && Strict(merged) && Set(merged) == others + Set(was)
    requires Apart(others, was) && Apart(others, accs)
    ensures var r := Refresh(was, accs);
            Strict(Replay(merged, r.1)) && Set(Replay(merged, r.1)) == others + Set(r.0)
    decreases |was| + |accs|
  {
    if was != [] && (accs == [] || Less(was[0].url, accs[0].url)) {
      DropStep(was, merged, others);
      EventsReplayed(was[1..], accs, Drop(merged, was[0]), others);
      ReplayCons(merged, Dropped(was[0]), [], Refresh(was[1..], accs));
    } else if accs != [] {
      AheadOfRest(accs);
      ApartUnion(others, {accs[0]}, accs[1..]);
      if was == [] || Less(accs[0].url, was[0].url) {
        ArriveStep(was, accs[0], merged, others);
        EventsReplayed(was, accs[1..], Merge(merged, accs[0]), others + {accs[0]});
        ReplayCons(merged, Arrived(accs[0]), [accs[0]], Refresh(was, accs[1..]));
      } else if was[0] == accs[0] {
        KeepStep(was, others);
        EventsReplayed(was[1..], accs[1..], merged, others + {was[0]});
        ReplayNone(merged, was[0], Refresh(was[1..], accs[1..]));
      } else {
        EventsReplayed(was, accs[1..], merged, others);
      }
    }
  }

  lemma {:induction false} DropStep(was: seq<Wallet>, merged: seq<Wallet>, others: set<Wallet>)
    requires Strict(was) && was != [] && Strict(merged) && Set(merged) == others + Set(was) && Apart(others, was)
    ensures Strict(was[1..]) && Strict(Drop(merged, was[0])) && Set(Drop(merged, was[0])) == others + Set(was[1..])
    ensures Apart(others, was[1..])
  {
    assert was[0] in Set(merged) && was[0] !in others;
    DropTakes(merged, was[0]);
    TailSet(was);
  }

  lemma {:induction false} ArriveStep(was: seq<Wallet>, a: Wallet, merged: seq<Wallet>, others: set<Wallet>)
    requires Strict(was) && (was == [] || Less(a.url, was[0].url))
    requires Strict(merged) && Set(merged) == others + Set(was) && Apart(others, was) && Apart(others, [a])
    ensures Strict(Merge(merged, a)) && Set(Merge(merged, a)) == others + {a} + Set(was) && Apart(others + {a}, was)
  {
    BeforeAll(a, was);
    assert forall x | x in others :: x.url != [a][0].url;
    ApartMerged(a, merged, others, was);
    ApartUnion(others, {a}, was);
    MergeAdds(merged, a);
  }

  lemma {:induction false} KeepStep(was: seq<Wallet>, others: set<Wallet>)
    requires Strict(was) && was != [] && Apart(others, was)
    ensures Strict(was[1..]) && Apart(others + {was[0]}, was[1..]) && others + Set(was) == others + {was[0]} + Set(was[1..])
  {
    AheadOfRest(was);
    TailSet(was);
    ApartUnion(others, {was[0]}, was[1..]);
  }

  lemma {:induction false} ReplayCons(ws: seq<Wallet>, e: Event, front: seq<Wallet>, rest: (seq<Wallet>, seq<Event>))
    ensures var r := Send(front, [e], rest);
            Replay(ws, r.1) == Replay(Update(ws, e), rest.1) && Set(r.0) == Set(front) + Set(rest.0)
  {
    assert ([e] + rest.1)[1..] == rest.1;
  }

  lemma {:induction false} ReplayNone(ws: seq<Wallet>, w: Wallet, rest: (seq<Wallet>, seq<Event>))
    ensures var r := Send([w], [], rest);
            Replay(ws, r.1) == Replay(ws, rest.1) && Set(r.0) == {w} + Set(rest.0)
  {
    assert [] + rest.1 == rest.1;
  }

  /** An account whose URL a wallet already has, for another address. */
  ghost predicate Changed(was: seq<Wallet>, x: Wallet) {
    exists i | 0 <= i < |was| :: was[i].url == x.url && was[i] != x
  }

  /** A wallet in front of an account, or past it, does not make it changed. */
  lemma {:induction false} ChangedTail(was: seq<Wallet>, x: Wallet)
    requires was != [] && was[0].url != x.url
    ensures Changed(was, x) <==> Changed(was[1..], x)
  {
    if Changed(was, x) {
      var i :| 0 <= i < |was| && was[i].url == x.url && was[i] != x;
      assert was[1..][i - 1] == was[i];
    }
  }

  /** The refreshed list has the current accounts, in order, except those whose address changed under a retained URL. */
  lemma {:induction false} RefreshedAre(was: seq<Wallet>, accs: seq<Wallet>)
    requires Strict(was) && Strict(accs)
    ensures var ws := Refresh(was, accs).0;
            && (forall x :: x in ws <==> x in accs && !Changed(was, x))
            && Strict(ws)
    decreases |was| + |accs|
  {
    if was != [] && (accs == [] || Less(was[0].url, accs[0].url)) {
      RefreshedAre(was[1..], accs);
      BeforeAll(was[0], accs);
      forall x | x in accs
        ensures Changed(was, x) <==> Changed(was[1..], x)
      {
        assert was[0] in {was[0]};
        ChangedTail(was, x);
      }
    } else if accs != [] {
      AheadOfRest(accs);
      var rest := if was == [] || Less(accs[0].url, was[0].url) || was[0] != accs[0] then was else was[1..];
      RefreshedAre(rest, accs[1..]);
      FirstChanged(was, accs[0]);
      if rest != was {
        forall x | x in accs[1..]
          ensures Changed(was, x) <==> Changed(rest, x)
        {
          assert accs[0] in {accs[0]};
          ChangedTail(was, x);
        }
      }
      ConsRefreshed(accs, Refresh(rest, accs[1..]).0, Changed(was, accs[0]));
    }
  }

  /** Whether the account at hand is changed shows at the first wallet that is not before it. */
  lemma {:induction false} FirstChanged(was: seq<Wallet>, x: Wallet)
    requires Strict(was) && (was == [] || !Less(was[0].url, x.url))
    ensures Changed(was, x) <==> was != [] && !Less(x.url, was[0].url) && was[0] != x
  {
    if was != [] {
      Total(x.url, was[0].url);
      Irreflexive(x.url);
      if Less(x.url, was[0].url) {
        BeforeAll(x, was);
        assert x in {x};
      } else {
        forall i | 0 < i < |was|
          ensures was[i].url != x.url
        {
          assert Less(was[0].url, was[i].url);
        }
      }
    }
  }

  lemma {:induction false} ConsRefreshed(accs: seq<Wallet>, ws: seq<Wallet>, changed: bool)
    requires Strict(accs) && accs != [] && Strict(ws) && forall x | x in ws :: x in accs[1..]
    ensures !changed ==> Strict([accs[0]] + ws)
  {
    var r := [accs[0]] + ws;
    forall j | 0 < j < |r|
      ensures Less(r[0].url, r[j].url)
    {
      assert r[j] in ws;
    }
  }

  // The events.

  /** How often the event was sent. */
  ghost function Times(events: seq<Event>, e: Event): nat {
    multiset(events)[e]
  }

  ghost predicate Gone(was: seq<Wallet>, accs: seq<Wallet>, w: Wallet) {
    w in was && w !in accs
  }

  ghost predicate Fresh(was: seq<Wallet>, accs: seq<Wallet>, w: Wallet) {
    w in accs && forall i | 0 <= i < |was| :: was[i].url != w.url
  }

  lemma {:induction false} TimesCons(e: Event, ws: seq<Wallet>, rest: (seq<Wallet>, seq<Event>), x: Event)
    ensures Times(Send(ws, [e], rest).1, x) == Times(rest.1, x) + if x == e then 1 else 0
    ensures Times(Send(ws, [], rest).1, x) == Times(rest.1, x)
  {
    assert [] + rest.1 == rest.1;
  }

  lemma {:induction false} NotIn(x: Wallet, ws: seq<Wallet>, w: Wallet)
    requires Apart({x}, ws)
    ensures w in ws ==> w != x && w.url != x.url
    ensures forall i | 0 <= i < |ws| :: ws[i].url != x.url
  {
    assert x in {x};
  }

  lemma {:induction false} InCons(ws: seq<Wallet>, w: Wallet)
    requires ws != []
    ensures w in ws <==> w == ws[0] || w in ws[1..]
    ensures (forall i | 0 <= i < |ws| :: ws[i].url != w.url) <==> ws[0].url != w.url && forall i | 0 <= i < |ws[1..]| :: ws[1..][i].url != w.url
  {
    assert forall i | 0 < i < |ws| :: ws[i] == ws[1..][i - 1];
  }

  /** The first wallet goes. */
  lemma {:induction false} DropFirst(was: seq<Wallet>, accs: seq<Wallet>, w: Wallet)
    requires was != [] && Apart({was[0]}, was[1..]) && Apart({was[0]}, accs)
    ensures Gone(was, accs, w) <==> w == was[0] || Gone(was[1..], accs, w)
    ensures w == was[0] ==> !Gone(was[1..], accs, w)
    ensures Fresh(was, accs, w) <==> Fresh(was[1..], accs, w)
  {
    NotIn(was[0], accs, w);
    NotIn(was[0], was[1..], w);
    InCons(was, w);
  }

  /** The first account arrives. */
  lemma {:induction false} AddFirst(was: seq<Wallet>, accs: seq<Wallet>, w: Wallet)
    requires accs != [] && Apart({accs[0]}, accs[1..]) && Apart({accs[0]}, was)
    ensures Gone(was, accs, w) <==> Gone(was, accs[1..], w)
    ensures Fresh(was, accs, w) <==> w == accs[0] || Fresh(was, accs[1..], w)
    ensures w == accs[0] ==> !Fresh(was, accs[1..], w)
  {
    NotIn(accs[0], was, w);
    NotIn(accs[0], accs[1..], w);
    InCons(accs, w);
  }

  /** The first account has the URL of the first wallet, and no other does. */
  lemma {:induction false} MeetFirst(was: seq<Wallet>, accs: seq<Wallet>, w: Wallet)
    requires was != [] && accs != [] && was[0].url == accs[0].url && Apart({was[0]}, was[1..]) && Apart({accs[0]}, accs[1..])
    ensures Gone(was, accs, w) <==> if was[0] == accs[0] then Gone(was[1..], accs[1..], w) else Gone(was, accs[1..], w)
    ensures Fresh(was, accs, w) <==> Fresh(if was[0] == accs[0] then was[1..] else was, accs[1..], w)
  {
    NotIn(was[0], was[1..], w);
    NotIn(accs[0], accs[1..], w);
    InCons(was, w);
    InCons(accs, w);
  }

  /** The events of a refresh: each wallet that is no current account is dropped once, each account with a new URL arrives once. */
  lemma {:induction false} EventsAre(was: seq<Wallet>, accs: seq<Wallet>, w: Wallet)
    requires Strict(was) && Strict(accs)
    ensures var events := Refresh(was, accs).1;
            && Times(events, Dropped(w)) == (if Gone(was, accs, w) then 1 else 0)
            && Times(events, Arrived(w)) == (if Fresh(was, accs, w) then 1 else 0)
    decreases |was| + |accs|
  {
    if was != [] {
      AheadOfRest(was);
    }
    if accs != [] {
      AheadOfRest(accs);
    }
    if was != [] && (accs == [] || Less(was[0].url, accs[0].url)) {
      EventsAre(was[1..], accs, w);
      BeforeAll(was[0], accs);
      DropFirst(was, accs, w);
      TimesCons(Dropped(was[0]), [], Refresh(was[1..], accs), Dropped(w));
      TimesCons(Dropped(was[0]), [], Refresh(was[1..], accs), Arrived(w));
    } else if accs != [] && (was == [] || Less(accs[0].url, was[0].url)) {
      EventsAre(was, accs[1..], w);
      BeforeAll(accs[0], was);
      AddFirst(was, accs, w);
      TimesCons(Arrived(accs[0]), [accs[0]], Refresh(was, accs[1..]), Dropped(w));
      TimesCons(Arrived(accs[0]), [accs[0]], Refresh(was, accs[1..]), Arrived(w));
    } else if accs != [] {
      var rest := if was[0] == accs[0] then was[1..] else was;
      Total(was[0].url, accs[0].url);
      EventsAre(rest, accs[1..], w);
      MeetFirst(was, accs, w);
      TimesCons(Dropped(w), [accs[0]], Refresh(rest, accs[1..]), Dropped(w));
      TimesCons(Dropped(w), [accs[0]], Refresh(rest, accs[1..]), Arrived(w));
    }
  }

  /** A refresh leaves exactly the current accounts if and only if no address changed under a retained URL. */
  lemma {:induction false} RefreshExact(was: seq<Wallet>, accs: seq<Wallet>)
    requires Strict(was) && Strict(accs)
    ensures Refresh(was, accs).0 == accs <==> forall i | 0 <= i < |accs| :: !Changed(was, accs[i])
  {
    var ws := Refresh(was, accs).0;
    RefreshedAre(was, accs);
    if forall i | 0 <= i < |accs| :: !Changed(was, accs[i]) {
      assert Set(ws) == Set(accs);
      StrictUnique(ws, accs);
    } else {
      var i :| 0 <= i < |accs| && Changed(was, accs[i]);
      assert accs[i] in accs && accs[i] !in ws;
    }
  }

  /** With no other backend, the manager's list becomes the keystore's. */
  lemma {:induction false} ManagerFollows(was: seq<Wallet>, accs: seq<Wallet>)
    requires Strict(was) && Strict(accs)
    ensures Replay(was, Refresh(was, accs).1) == Refresh(was, accs).0
  {
    EventsReplayed(was, accs, was, {});
    RefreshedAre(was, accs);
    StrictUnique(Replay(was, Refresh(was, accs).1), Refresh(was, accs).0);
  }

  /** An address that changed under a retained URL: the old wallet goes and the new account is missing. */
  lemma {:induction false} ChangedAddressLost(u: URL)
    ensures Refresh([Account(1, u)], [Account(2, u)]) == ([], [Dropped(Account(1, u))])
  {
    Irreflexive(u);
    var w := [Account(1, u)];
    assert w[1..] == [] && [Account(2, u)][1..] == [];
    assert Refresh([], []) == ([], []);
    assert Refresh(w, []) == Send([], [Dropped(w[0])], ([], []));
    assert [Dropped(w[0])] + [] == [Dropped(w[0])];
  }
}
