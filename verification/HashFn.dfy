/** `GetHashFn` (internal/evm.go): block hashes by number, from a lazily grown cache of ancestors. */
module HashFn {
  import opened Bytes

  type Hash = nat

  const ZERO: Hash := 0
  const MAX_U64: int := TWO_64 - 1

  datatype Header = Header(number: U64, parent: Hash)

  /** Headers by hash and number, as the database keys them. */
  type Headers = map<(Hash, U64), Header>

  /** A header is found under its own number, and none has the number just below zero, modulo 2^64. */
  ghost predicate HeadersOk(headers: Headers) {
    forall k | k in headers :: headers[k].number == k.1 && k.1 != MAX_U64
  }

  /** 64-bit subtraction, wrapping. */
  function Sub(a: U64, b: U64): U64 {
    if a >= b then a - b else a - b + TWO_64
  }

  /** The parent-by-parent walk from the ancestor `h` with number `num` to number `n`; zero when a header is missing. */
  function Walk(headers: Headers, h: Hash, num: U64, n: U64): Hash
    requires HeadersOk(headers)
    decreases if num == MAX_U64 then 0 else num + 1
  {
    if num == n then h
    else if (h, num) in headers then Walk(headers, headers[(h, num)].parent, Sub(num, 1), n)
    else ZERO
  }

  /** The hashes the walk can visit. */
  function Chain(headers: Headers, h: Hash, num: U64): (c: seq<Hash>)
    requires HeadersOk(headers)
    ensures c != [] && c[0] == h && |c| <= if num == MAX_U64 then 1 else num + 2
    decreases if num == MAX_U64 then 0 else num + 1
  {
    [h] + if (h, num) in headers then Chain(headers, headers[(h, num)].parent, Sub(num, 1)) else []
  }

  /** The walk finds the hash that many places down the chain. */
  lemma {:induction false} WalkIndexes(headers: Headers, h: Hash, num: U64, n: U64)
    requires HeadersOk(headers)
    ensures var c := Chain(headers, h, num);
            Walk(headers, h, num, n) == if Sub(num, n) < |c| then c[Sub(num, n)] else ZERO
    decreases if num == MAX_U64 then 0 else num + 1
  {
    SubSub(num, n, 0);
    if num != n && (h, num) in headers {
      var p, below := headers[(h, num)].parent, Sub(num, 1);
      WalkIndexes(headers, p, below, n);
      assert Sub(num, n) == Sub(below, n) + 1;
      assert Chain(headers, h, num) == [h] + Chain(headers, p, below);
    }
  }

  /** Counting down from `num`, `n` comes after `k` numbers exactly when `k` is the distance. */
  lemma SubSub(num: U64, n: U64, k: U64)
    ensures Sub(num, k) == n <==> Sub(num, n) == k
  {
  }

  /** One place further down the chain. */
  lemma {:induction false} ChainNext(headers: Headers, h: Hash, num: U64, k: nat)
    requires HeadersOk(headers) && k < |Chain(headers, h, num)| && k < TWO_64
    ensures var c, at := Chain(headers, h, num), Sub(num, k);
            if (c[k], at) in headers then k + 1 < |c| && c[k + 1] == headers[(c[k], at)].parent else |c| == k + 1
    decreases k
  {
    if k > 0 {
      ChainNext(headers, headers[(h, num)].parent, Sub(num, 1), k - 1);
      assert Sub(Sub(num, 1), k - 1) == Sub(num, k);
    }
  }

  lemma PrefixNext(was: seq<Hash>, cache: seq<Hash>, chain: seq<Hash>)
    requires was <= cache <= chain && |cache| < |chain|
    ensures was <= cache + [chain[|cache|]] <= chain
  {
  }

  /** The closure that `GetHashFn` returns: the reference header it was made for, and the cache it captures. */
  class HashFn {
    const number: U64
    const parent: Hash
    const headers: Headers
    var cache: seq<Hash>

    /** The cache is a prefix of the ancestor chain. */
    ghost predicate Valid()
      reads this
    {
      HeadersOk(headers) && cache <= Chain(headers, parent, Sub(number, 1))
    }

    constructor (number: U64, parent: Hash, headers: Headers)
      requires HeadersOk(headers)
      ensures Valid() && this.number == number && this.parent == parent && this.headers == headers
    {
      this.number := number;
      this.parent := parent;
      this.headers := headers;
      cache := [];
    }

    /** A query: whatever was asked before, the answer is that of a fresh walk. */
    method Get(n: U64) returns (h: Hash)
      requires Valid()
      modifies this
      ensures Valid() && old(cache) <= cache
      ensures h == Walk(headers, parent, Sub(number, 1), n)
    {
      ghost var start := Sub(number, 1);
      WalkIndexes(headers, parent, start, n);
      if |cache| == 0 {
        cache := [parent];
      }
      var idx := Sub(Sub(number, n), 1);
      assert idx == Sub(start, n);
      if idx < |cache| {
        return cache[idx];
      }
      h := Extend(n, start, idx, Chain(headers, parent, start));
    }

    /** The loop of a query that the cache does not answer. */
    method Extend(n: U64, ghost start: U64, ghost idx: U64, ghost chain: seq<Hash>) returns (h: Hash)
      requires HeadersOk(headers) && chain == Chain(headers, parent, start) && start == Sub(number, 1) && idx == Sub(start, n)
      requires 0 < |cache| <= idx && cache <= chain
      modifies this
      ensures old(cache) <= cache <= chain
      ensures h == if idx < |chain| then chain[idx] else ZERO
    {
      var lastKnownHash, lastKnownNumber := cache[|cache| - 1], Sub(number, |cache|);
      while true
        invariant 0 < |cache| <= idx && cache <= chain && old(cache) <= cache
        invariant lastKnownHash == chain[|cache| - 1] && lastKnownNumber == Sub(start, |cache| - 1)
        decreases |chain| - |cache|
      {
        ChainNext(headers, parent, start, |cache| - 1);
        if (lastKnownHash, lastKnownNumber) !in headers {
          break;
        }
        var header := headers[(lastKnownHash, lastKnownNumber)];
        PrefixNext(old(cache), cache, chain);
        cache := cache + [header.parent];
        lastKnownHash := header.parent;
        lastKnownNumber := Sub(header.number, 1);
        SubSub(start, n, |cache| - 1);
        if n == lastKnownNumber {
          return lastKnownHash;
        }
      }
      h := ZERO;
    }
  }
}
