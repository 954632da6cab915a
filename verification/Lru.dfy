/** The least-recently-used cache behind the chain's block and total difficulty caches, most recent entry first. */
module Lru {
  import opened Wrappers

  datatype Entry<V> = Entry(key: nat, value: V)

  type Cache<V> = seq<Entry<V>>

  function Lookup<V>(c: Cache<V>, k: nat): Option<V> {
    if c == [] then None else if c[0].key == k then Some(c[0].value) else Lookup(c[1..], k)
  }

  function Remove<V>(c: Cache<V>, k: nat): (r: Cache<V>)
    ensures |r| == |c| - if Lookup(c, k).Some? then 1 else 0
  {
    if c == [] then [] else if c[0].key == k then c[1..] else [c[0]] + Remove(c[1..], k)
  }

  /** `Get`: the entry found moves to the front. */
  function Touch<V>(c: Cache<V>, k: nat): Cache<V> {
    if Lookup(c, k).None? then c else [Entry(k, Lookup(c, k).value)] + Remove(c, k)
  }

  /** `Add`: the entry comes first, and the last one goes when there are more than `limit`. */
  function Add<V>(c: Cache<V>, k: nat, v: V, limit: nat): Cache<V> {
    if Lookup(c, k).Some? then [Entry(k, v)] + Remove(c, k)
    else if |c| < limit then [Entry(k, v)] + c
    else ([Entry(k, v)] + c)[..limit]
  }

  ghost predicate LruOk<V>(c: Cache<V>, limit: nat) {
    |c| <= limit && forall i, j | 0 <= i < j < |c| :: c[i].key != c[j].key
  }

  lemma {:induction false} LookupMeans<V>(c: Cache<V>, k: nat)
    ensures Lookup(c, k).Some? <==> exists i :: 0 <= i < |c| && c[i].key == k
  {
    if c != [] && c[0].key != k {
      LookupMeans(c[1..], k);
      if i :| 0 <= i < |c| && c[i].key == k {
        assert c[1..][i - 1].key == k;
      }
    }
  }

  /** The first key does not occur again. */
  lemma TailOk<V>(c: Cache<V>, limit: nat)
    requires LruOk(c, limit) && c != []
    ensures LruOk(c[1..], limit) && Lookup(c[1..], c[0].key).None?
  {
    LookupMeans(c[1..], c[0].key);
  }

  lemma ConsOk<V>(e: Entry<V>, c: Cache<V>, limit: nat)
    requires LruOk(c, limit) && |c| < limit && Lookup(c, e.key).None?
    ensures LruOk([e] + c, limit)
  {
    LookupMeans(c, e.key);
  }

  lemma {:induction false} RemoveIs<V>(c: Cache<V>, k: nat, j: nat, limit: nat)
    requires LruOk(c, limit)
    ensures LruOk(Remove(c, k), limit) && Lookup(Remove(c, k), j) == if j == k then None else Lookup(c, j)
  {
    if c != [] {
      TailOk(c, limit);
      if c[0].key != k {
        RemoveIs(c[1..], k, j, limit);
        RemoveIs(c[1..], k, c[0].key, limit);
        ConsOk(c[0], Remove(c[1..], k), limit);
        assert ([c[0]] + Remove(c[1..], k))[1..] == Remove(c[1..], k);
      }
    }
  }

  lemma {:induction false} TakeIs<V>(c: Cache<V>, n: nat, j: nat)
    requires n <= |c|
    ensures Lookup(c[..n], j).None? || Lookup(c[..n], j) == Lookup(c, j)
  {
    if n > 0 && c[0].key != j {
      TakeIs(c[1..], n - 1, j);
      assert c[..n][1..] == c[1..][..n - 1];
    }
  }

  lemma TouchIs<V>(c: Cache<V>, k: nat, j: nat, limit: nat)
    requires LruOk(c, limit)
    ensures LruOk(Touch(c, k), limit) && Lookup(Touch(c, k), j) == Lookup(c, j)
  {
    if Lookup(c, k).Some? {
      var e := Entry(k, Lookup(c, k).value);
      RemoveIs(c, k, j, limit);
      RemoveIs(c, k, k, limit);
      ConsOk(e, Remove(c, k), limit);
      assert ([e] + Remove(c, k))[1..] == Remove(c, k);
    }
  }

  /** An added entry is there; another one is as it was, or gone. */
  lemma AddIs<V>(c: Cache<V>, k: nat, v: V, j: nat, limit: nat)
    requires LruOk(c, limit) && limit > 0
    ensures LruOk(Add(c, k, v, limit), limit)
    ensures var l := Lookup(Add(c, k, v, limit), j);
            if j == k then l == Some(v) else l.None? || l == Lookup(c, j)
  {
    var e := Entry(k, v);
    if Lookup(c, k).Some? {
      RemoveIs(c, k, j, limit);
      RemoveIs(c, k, k, limit);
      ConsOk(e, Remove(c, k), limit);
      assert ([e] + Remove(c, k))[1..] == Remove(c, k);
    } else if |c| < limit {
      ConsOk(e, c, limit);
      assert ([e] + c)[1..] == c;
    } else {
      ConsOk(e, c, limit + 1);
      assert ([e] + c)[1..] == c;
      TakeIs([e] + c, limit, j);
    }
  }

  // How long an entry survives.

  /** The keys in front of `h`. */
  function Ahead<V>(c: Cache<V>, h: nat): set<nat> {
    if c == [] || c[0].key == h then {} else {c[0].key} + Ahead(c[1..], h)
  }

  lemma {:induction false} AheadIs<V>(c: Cache<V>, h: nat, k: nat, limit: nat)
    requires LruOk(c, limit)
    ensures k in Ahead(c, h) ==> Lookup(c, k).Some? && k != h
    ensures |Ahead(c, h)| <= |c| && (Lookup(c, h).Some? ==> |Ahead(c, h)| < |c|)
  {
    if c != [] && c[0].key != h {
      TailOk(c, limit);
      AheadIs(c[1..], h, k, limit);
      AheadIs(c[1..], h, c[0].key, limit);
    }
  }

  lemma {:induction false} AheadRemove<V>(c: Cache<V>, h: nat, k: nat, limit: nat)
    requires LruOk(c, limit) && h != k && Lookup(c, h).Some?
    ensures Ahead(Remove(c, k), h) == Ahead(c, h) - {k}
  {
    if c[0].key != h {
      TailOk(c, limit);
      if c[0].key == k {
        AheadIs(c[1..], h, k, limit);
      } else {
        AheadRemove(c[1..], h, k, limit);
        assert ([c[0]] + Remove(c[1..], k))[1..] == Remove(c[1..], k);
      }
    } else {
      assert Remove(c, k)[0] == c[0];
    }
  }

  /** Among the first `n` entries exactly when fewer than `n` keys are in front. */
  lemma {:induction false} AheadTake<V>(c: Cache<V>, h: nat, n: nat, limit: nat)
    requires LruOk(c, limit) && n <= |c| && Lookup(c, h).Some?
    ensures Lookup(c[..n], h) == if |Ahead(c, h)| < n then Lookup(c, h) else None
    ensures |Ahead(c, h)| < n ==> Ahead(c[..n], h) == Ahead(c, h)
  {
    if c[0].key == h {
      assert n > 0 ==> c[..n][0] == c[0];
    } else {
      TailOk(c, limit);
      AheadIs(c[1..], h, c[0].key, limit);
      assert |Ahead(c, h)| == |Ahead(c[1..], h)| + 1;
      if n > 0 {
        AheadTake(c[1..], h, n - 1, limit);
        assert c[..n][1..] == c[1..][..n - 1];
      }
    }
  }

  /** `Get`, and `Add` of `v` when nothing was found. */
  function Use<V>(c: Cache<V>, k: nat, v: V, limit: nat): Cache<V> {
    if Lookup(c, k).Some? then Touch(c, k) else Add(c, k, v, limit)
  }

  /** What one use of another key does to an entry: it falls behind that key, and out of a full cache from the last place. */
  lemma UseAhead<V>(c: Cache<V>, k: nat, v: V, h: nat, limit: nat)
    requires LruOk(c, limit) && limit > 0 && h != k && Lookup(c, h).Some?
    ensures var c', ahead := Use(c, k, v, limit), Ahead(c, h) + {k};
            if |ahead| < limit then Lookup(c', h) == Lookup(c, h) && Ahead(c', h) == ahead else Lookup(c', h).None?
  {
    AheadIs(c, h, k, limit);
    if Lookup(c, k).Some? {
      var e := Entry(k, Lookup(c, k).value);
      TouchIs(c, k, h, limit);
      AheadRemove(c, h, k, limit);
      assert ([e] + Remove(c, k))[1..] == Remove(c, k);
      assert Ahead(Touch(c, k), h) == Ahead(c, h) + {k};
      TouchIs(c, k, k, limit);
      AheadIs(Touch(c, k), h, k, limit);
    } else {
      var d := [Entry(k, v)] + c;
      assert d[1..] == c && Ahead(d, h) == Ahead(c, h) + {k};
      if |c| < limit {
        AheadIs(c, h, h, limit);
      } else {
        ConsOk(Entry(k, v), c, limit + 1);
        AheadTake(d, h, limit, limit + 1);
      }
    }
  }

  /** Where the entry of `h` in `was` stands in `c`, once all of `ahead` went in front of it. */
  ghost predicate Stands<V(!new)>(was: Cache<V>, c: Cache<V>, h: nat, ahead: set<nat>, limit: nat) {
    if |ahead| < limit then Lookup(c, h) == Lookup(was, h) && Ahead(c, h) == ahead else Lookup(c, h).None?
  }

  lemma StandsStep<V(!new)>(was: Cache<V>, c: Cache<V>, h: nat, ahead: set<nat>, k: nat, v: V, limit: nat)
    requires LruOk(c, limit) && limit > 0 && h != k && Lookup(was, h).Some? && Stands(was, c, h, ahead, limit)
    ensures Stands(was, Use(c, k, v, limit), h, ahead + {k}, limit)
  {
    if |ahead| < limit {
      UseAhead(c, k, v, h, limit);
    } else {
      assert k in ahead ==> ahead + {k} == ahead;
      TouchIs(c, k, h, limit);
      AddIs(c, k, v, h, limit);
    }
  }
}
