/** What every interleaving of `Lock`, `Unlock` and `Clean` keeps: exclusion, no panics, no deadlock. */
module MultilockSafety {
  import opened Wrappers
  import opened Lex
  import opened Multilock

  /** A run: steps taken one after the other from the empty registry. */
  ghost predicate Run(states: seq<State>, acts: seq<Action>) {
    && |states| == |acts| + 1
    && states[0] == Init
    && forall i | 0 <= i < |acts| :: Enabled(states[i], acts[i]) && states[i + 1] == Apply(states[i], acts[i])
  }

  lemma {:induction false} RunInv(states: seq<State>, acts: seq<Action>, i: nat)
    requires Run(states, acts) && i < |states|
    ensures Inv(states[i])
  {
    if i > 0 {
      RunInv(states, acts, i - 1);
      StepKeepsInv(states[i - 1], acts[i - 1]);
    }
  }

  predicate Holds(s: State, l: LockId, k: Key) {
    l in s.locks && |s.locks[l].chans| <= |s.locks[l].keys| &&
    exists j | Returned(s.locks[l]) <= j < |s.locks[l].chans| :: s.locks[l].keys[j] == k
  }

  /** Mutual exclusion: in every state of every run a key has at most one holder. */
  lemma MutualExclusion(states: seq<State>, acts: seq<Action>, i: nat, l: LockId, m: LockId, k: Key)
    requires Run(states, acts) && i < |states|
    requires Holds(states[i], l, k) && Holds(states[i], m, k)
    ensures l == m
  {
    RunInv(states, acts, i);
    var s := states[i];
    assert LockOk(s, l) && LockOk(s, m);
    var j :| Returned(s.locks[l]) <= j < |s.locks[l].chans| && s.locks[l].keys[j] == k;
    var j' :| Returned(s.locks[m]) <= j' < |s.locks[m].chans| && s.locks[m].keys[j'] == k;
    assert HeldOk(s, k, s.locks[l].chans[j], l, j) && HeldOk(s, k, s.locks[m].chans[j'], m, j');
  }

  /** The collector never takes the channel of a held key: it stays registered, open and empty. */
  lemma HeldChannelStays(states: seq<State>, acts: seq<Action>, i: nat, l: LockId, k: Key)
    requires Run(states, acts) && i < |states| && Holds(states[i], l, k)
    ensures var s := states[i];
            && k in s.registry && s.registry[k] < |s.chans|
            && s.chans[s.registry[k]].open && !s.chans[s.registry[k]].token.InChannel?
  {
    RunInv(states, acts, i);
    var s := states[i];
    assert LockOk(s, l);
    var j :| Returned(s.locks[l]) <= j < |s.locks[l].chans| && s.locks[l].keys[j] == k;
    assert HeldOk(s, k, s.locks[l].chans[j], l, j);
  }

  /** `Unlock` gives every channel back without blocking and without sending on a closed channel; no step of a run panics. */
  lemma UnlockNeverStuck(states: seq<State>, acts: seq<Action>, i: nat, l: LockId)
    requires Run(states, acts) && i < |states|
    requires l in states[i].locks && states[i].locks[l].pc.Sending? && states[i].locks[l].pc.sent < |states[i].locks[l].chans|
    ensures Enabled(states[i], Send(l)) && !Panics(states[i], Send(l))
  {
    RunInv(states, acts, i);
    var s := states[i];
    var lk := s.locks[l];
    assert LockOk(s, l);
    assert HeldOk(s, lk.keys[lk.pc.sent], lk.chans[lk.pc.sent], l, lk.pc.sent);
  }

  lemma RunNeverPanics(states: seq<State>, acts: seq<Action>, i: nat)
    requires Run(states, acts) && i < |acts|
    ensures !Panics(states[i], acts[i])
  {
    RunInv(states, acts, i);
    StepKeepsInv(states[i], acts[i]);
  }

  // Waiting.

  /** `l` waits on an open, empty channel. */
  predicate Blocked(s: State, l: LockId) {
    l in s.locks && s.locks[l].pc.Receiving? && s.locks[l].pc.ch < |s.chans|
    && s.chans[s.locks[l].pc.ch].open && !s.chans[s.locks[l].pc.ch].token.InChannel?
  }

  /** `l` is blocked on a channel that `m` holds. */
  predicate WaitsFor(s: State, l: LockId, m: LockId) {
    Blocked(s, l) && m in s.locks &&
    exists j | Returned(s.locks[m]) <= j < |s.locks[m].chans| :: s.locks[m].chans[j] == s.locks[l].pc.ch
  }

  function Wanted(s: State, l: LockId): Key
    requires l in s.locks && |s.locks[l].chans| < |s.locks[l].keys|
  {
    s.locks[l].keys[|s.locks[l].chans|]
  }

  /** Along the wait-for relation the wanted keys strictly increase. */
  lemma WaitsUpward(s: State, l: LockId, m: LockId)
    requires Inv(s) && WaitsFor(s, l, m) && Blocked(s, m)
    ensures LockOk(s, l) && LockOk(s, m) && Less(Wanted(s, l), Wanted(s, m))
  {
    assert LockOk(s, l) && LockOk(s, m);
    var lk, mk := s.locks[l], s.locks[m];
    var j :| Returned(mk) <= j < |mk.chans| && mk.chans[j] == lk.pc.ch;
    assert HeldOk(s, mk.keys[j], mk.chans[j], m, j);
    assert mk.keys[j] == Wanted(s, l);
  }

  predicate WaitPath(s: State, p: seq<LockId>) {
    p != [] && forall i | 0 <= i < |p| - 1 :: WaitsFor(s, p[i], p[i + 1])
  }

  lemma PathTail(s: State, p: seq<LockId>)
    requires WaitPath(s, p) && |p| >= 2
    ensures WaitPath(s, p[1..])
  {
    var q := p[1..];
    forall i | 0 <= i < |q| - 1
      ensures WaitsFor(s, q[i], q[i + 1])
    {
      assert WaitsFor(s, p[i + 1], p[i + 1 + 1]);
    }
  }

  lemma PathCons(s: State, l: LockId, q: seq<LockId>)
    requires WaitPath(s, q) && WaitsFor(s, l, q[0])
    ensures WaitPath(s, [l] + q)
  {
    var p := [l] + q;
    forall i | 0 <= i < |p| - 1
      ensures WaitsFor(s, p[i], p[i + 1])
    {
      assert i > 0 ==> WaitsFor(s, q[i - 1], q[i - 1 + 1]);
    }
  }

  lemma {:induction false} PathUpward(s: State, p: seq<LockId>)
    requires Inv(s) && WaitPath(s, p) && |p| >= 2 && Blocked(s, p[|p| - 1])
    ensures Blocked(s, p[0]) && LockOk(s, p[0]) && LockOk(s, p[|p| - 1])
    ensures Less(Wanted(s, p[0]), Wanted(s, p[|p| - 1]))
  {
    assert WaitsFor(s, p[0], p[1]);
    if |p| == 2 {
      WaitsUpward(s, p[0], p[1]);
    } else {
      assert WaitsFor(s, p[1], p[2]);
      WaitsUpward(s, p[0], p[1]);
      var q := p[1..];
      PathTail(s, p);
      PathUpward(s, q);
      Transitive(Wanted(s, p[0]), Wanted(s, p[1]), Wanted(s, p[|p| - 1]));
    }
  }

  /** No deadlock cycle: in every state of every run the wait-for relation is acyclic. */
  lemma WaitsForAcyclic(states: seq<State>, acts: seq<Action>, i: nat, p: seq<LockId>)
    requires Run(states, acts) && i < |states| && WaitPath(states[i], p) && |p| >= 2
    ensures p[0] != p[|p| - 1]
  {
    RunInv(states, acts, i);
    assert WaitsFor(states[i], p[0], p[1]);
    if p[0] == p[|p| - 1] {
      PathUpward(states[i], p);
      Irreflexive(Wanted(states[i], p[0]));
      assert false;
    }
  }

  function AllKeys(s: State): set<Key> {
    set l, k | l in s.locks && k in s.locks[l].keys :: k
  }

  function Above(s: State, k: Key): set<Key> {
    set k' | k' in AllKeys(s) && Less(k, k')
  }

  /** The token of a blocked lock's channel is with the collector, which is about to close it. */
  predicate AwaitsCollector(s: State, l: LockId) {
    Blocked(s, l) && s.gc.Close? && s.gc.key in s.registry && s.registry[s.gc.key] == s.locks[l].pc.ch
  }

  /** Every chain of blocked locks ends: at a lock that can go on while holding a key, or at the collector. */
  lemma {:induction false} ChainEnds(s: State, l: LockId) returns (p: seq<LockId>)
    requires Inv(s) && Blocked(s, l)
    ensures WaitPath(s, p) && p[0] == l
    ensures var m := p[|p| - 1];
            AwaitsCollector(s, m) || (!Blocked(s, m) && m in s.locks && Returned(s.locks[m]) < |s.locks[m].chans|)
    decreases LockOk(s, l), if LockOk(s, l) then Above(s, Wanted(s, l)) else {}
  {
    assert LockOk(s, l);
    var ch := s.locks[l].pc.ch;
    assert ChanOk(s, ch);
    if s.chans[ch].token.WithCollector? {
      p := [l];
    } else {
      var m, j := s.chans[ch].token.l, s.chans[ch].token.j;
      assert Owns(s, m, j) && s.locks[m].chans[j] == ch;
      assert WaitsFor(s, l, m);
      if Blocked(s, m) {
        WaitsUpward(s, l, m);
        AboveShrinks(s, l, m);
        var q := ChainEnds(s, m);
        PathCons(s, l, q);
        p := [l] + q;
      } else {
        p := [l, m];
      }
    }
  }

  lemma AboveShrinks(s: State, l: LockId, m: LockId)
    requires Inv(s) && l in s.locks && m in s.locks && LockOk(s, l) && LockOk(s, m)
    requires s.locks[l].pc.Receiving? && s.locks[m].pc.Receiving? && Less(Wanted(s, l), Wanted(s, m))
    ensures Above(s, Wanted(s, m)) < Above(s, Wanted(s, l))
  {
    var a, b := Wanted(s, l), Wanted(s, m);
    forall k | k in Above(s, b)
      ensures k in Above(s, a)
    {
      Transitive(a, b, k);
    }
    assert b in s.locks[m].keys;
    assert b in Above(s, a);
    Irreflexive(b);
    assert b !in Above(s, b);
  }

  /** A step that an operation already under way takes, or the unlock of a held lock. */
  predicate Continues(a: Action) {
    !a.New? && !a.BeginLock? && !(a.CleanStart? && a.owner.None?)
  }

  lemma CollectorGoesOn(s: State) returns (a: Action)
    requires Inv(s) && !s.gc.NoGc?
    ensures Enabled(s, a) && Continues(a)
  {
    if s.gc.Close? {
      a := CleanClose;
    } else if s.gc.todo == {} {
      a := CleanEnd;
    } else {
      var k :| k in s.gc.todo;
      a := CleanVisit(k);
    }
  }

  /** Deadlock freedom: while any lock is inside `Lock` or `Unlock`, some operation can take its next step. */
  lemma NeverStuck(states: seq<State>, acts: seq<Action>, i: nat, l: LockId) returns (a: Action)
    requires Run(states, acts) && i < |states|
    requires l in states[i].locks && !states[i].locks[l].pc.Idle?
    ensures Enabled(states[i], a) && Continues(a)
  {
    RunInv(states, acts, i);
    var s := states[i];
    if !s.gc.NoGc? {
      a := CollectorGoesOn(s);
    } else if Blocked(s, l) {
      var p := ChainEnds(s, l);
      a := LockGoesOn(s, p[|p| - 1]);
    } else {
      a := LockGoesOn(s, l);
    }
  }

  lemma LockGoesOn(s: State, l: LockId) returns (a: Action)
    requires Inv(s) && s.gc.NoGc? && l in s.locks && !Blocked(s, l) && !s.locks[l].pc.Idle?
    ensures Enabled(s, a) && Continues(a)
  {
    assert LockOk(s, l);
    var lk := s.locks[l];
    match lk.pc
    case Getting => a := GetChan(l);
    case Receiving(_) => a := Receive(l);
    case Locked => a := BeginUnlock(l);
    case Sending(sent) =>
      if sent < |lk.chans| {
        assert HeldOk(s, lk.keys[sent], lk.chans[sent], l, sent);
        a := Send(l);
      } else {
        a := EndSend(l);
      }
    case Cleaning => a := CleanStart(Some(l));
  }

  // Construction of a lock.

  function Elements(s: seq<Key>): set<Key> {
    set k | k in s
  }

  predicate Distinct(s: seq<Key>) {
    forall i, j | 0 <= i < j < |s| :: s[i] != s[j]
  }

  /** `unique`: the first occurrences, in order. */
  method Unique(arr: seq<Key>) returns (result: seq<Key>)
    ensures Distinct(result) && Elements(result) == Elements(arr)
  {
    if |arr| <= 1 {
      return arr;
    }
    var found: set<Key> := {};
    result := [];
    for i := 0 to |arr|
      invariant Distinct(result) && Elements(result) == Elements(arr[..i]) == found
    {
      assert arr[..i + 1] == arr[..i] + [arr[i]];
      assert Elements(arr[..i + 1]) == Elements(arr[..i]) + {arr[i]};
      assert Elements(result + [arr[i]]) == Elements(result) + {arr[i]};
      assert arr[i] in result ==> arr[i] in Elements(result);
      if arr[i] !in found {
        found := found + {arr[i]};
        result := result + [arr[i]];
      }
    }
    assert arr[..|arr|] == arr;
  }

  function Insert(k: Key, s: seq<Key>): seq<Key> {
    if s == [] || Less(k, s[0]) then [k] + s else [s[0]] + Insert(k, s[1..])
  }

  lemma {:induction false} InsertSorted(k: Key, s: seq<Key>)
    requires StrictlySorted(s) && k !in s
    ensures StrictlySorted(Insert(k, s)) && Elements(Insert(k, s)) == Elements(s) + {k}
  {
    if s == [] {
    } else if Less(k, s[0]) {
      forall i | 0 < i < |s|
        ensures Less(k, s[i])
      {
        Transitive(k, s[0], s[i]);
      }
    } else {
      Total(k, s[0]);
      InsertSorted(k, s[1..]);
      var t := Insert(k, s[1..]);
      assert forall x | x in t :: x in Elements(t);
      assert forall x | x in s[1..] :: Less(s[0], x);
      assert forall x | x in t :: Less(s[0], x);
      assert Elements(s) == Elements(s[1..]) + {s[0]};
      assert Elements([s[0]] + t) == Elements(t) + {s[0]};
    }
  }

  /** `sort.Strings`. */
  function Sort(s: seq<Key>): seq<Key> {
    if s == [] then [] else Insert(s[0], Sort(s[1..]))
  }

  lemma {:induction false} SortSorts(s: seq<Key>)
    requires Distinct(s)
    ensures StrictlySorted(Sort(s)) && Elements(Sort(s)) == Elements(s)
  {
    if s != [] {
      SortSorts(s[1..]);
      assert forall x | x in Sort(s[1..]) :: x in Elements(Sort(s[1..]));
      InsertSorted(s[0], Sort(s[1..]));
      assert Elements(s) == Elements(s[1..]) + {s[0]};
    }
  }

  /** `NewMultilock`: no lock for no keys, otherwise each requested key once, in increasing order. */
  method NewMultilock(locks: seq<Key>) returns (r: Option<Lock>)
    ensures r.None? <==> locks == []
    ensures r.Some? ==> Elements(r.value.keys) == Elements(locks) && StrictlySorted(r.value.keys)
    ensures forall s: State, l | r.Some? && l !in s.locks :: Enabled(s, New(l, r.value.keys))
  {
    if |locks| == 0 {
      return None;
    }
    var u := Unique(locks);
    SortSorts(u);
    assert locks[0] in Elements(locks);
    assert Elements(Sort(u)) != {};
    r := Some(Lock(Sort(u), [], Idle));
  }
}
