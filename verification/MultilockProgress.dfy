/** What the operations of the multi-key lock achieve: keys are acquired and given back, idle channels are collected. */
module MultilockProgress {
  import opened Wrappers
  import opened Lex
  import opened Multilock
  import opened MultilockSafety

  // Lock and Unlock.

  /** A lock that is locked holds exactly its keys; one at rest holds none. */
  lemma HeldKeys(s: State, l: LockId, k: Key)
    requires Inv(s) && l in s.locks
    ensures s.locks[l].pc.Locked? ==> (Holds(s, l, k) <==> k in s.locks[l].keys)
    ensures s.locks[l].pc.Idle? || s.locks[l].pc.Cleaning? ==> !Holds(s, l, k)
  {
    assert LockOk(s, l);
    var lk := s.locks[l];
    if lk.pc.Locked? && k in lk.keys {
      var j :| 0 <= j < |lk.keys| && lk.keys[j] == k;
      assert Returned(lk) <= j < |lk.chans|;
    }
  }

  /** The channel of the key is open and has its token, or the key has no channel yet. */
  predicate Free(s: State, k: Key) {
    k in s.registry ==> s.registry[k] < |s.chans| && s.chans[s.registry[k]] == Chan(true, InChannel)
  }

  /** `getChan` gives the registered channel of the wanted key, making a free one where there was none. */
  lemma GetsChannel(s: State, l: LockId)
    requires Inv(s) && Enabled(s, GetChan(l))
    ensures var s', k := Apply(s, GetChan(l)), Wanted(s, l);
            && s'.locks[l] == s.locks[l].(pc := Receiving(s'.registry[k])) && s'.gc == s.gc
            && (if k in s.registry then s'.registry == s.registry && s'.chans == s.chans
                else s'.registry == s.registry[k := |s.chans|] && s'.chans == s.chans + [Chan(true, InChannel)])
            && forall m | m != l && m in s.locks :: m in s'.locks && s'.locks[m] == s.locks[m]
  {
    assert LockOk(s, l);
  }

  /** A receive from a channel with its token acquires the wanted key; from a closed channel the lock tries again. */
  lemma ReceiveTakes(s: State, l: LockId)
    requires Inv(s) && Enabled(s, Receive(l))
    ensures LockOk(s, l)
    ensures var s', k, lk := Apply(s, Receive(l)), Wanted(s, l), s.locks[l];
            if s.chans[lk.pc.ch].token.InChannel? then
              && Holds(s', l, k) && (forall x :: Holds(s', l, x) <==> Holds(s, l, x) || x == k)
              && s'.locks[l].pc == if |lk.chans| + 1 == |lk.keys| then Locked else Getting
            else
              s' == s.(locks := s.locks[l := lk.(pc := Getting)])
  {
    assert LockOk(s, l);
    var s', lk := Apply(s, Receive(l)), s.locks[l];
    var lk', n := s'.locks[l], |lk.chans|;
    if s.chans[lk.pc.ch].token.InChannel? {
      assert lk'.keys[n] == Wanted(s, l);
      forall x
        ensures Holds(s', l, x) <==> Holds(s, l, x) || x == Wanted(s, l)
      {
        if Holds(s, l, x) {
          var j :| Returned(lk) <= j < |lk.chans| && lk.keys[j] == x;
          assert lk'.keys[j] == x;
        }
        if Holds(s', l, x) {
          var j :| Returned(lk') <= j < |lk'.chans| && lk'.keys[j] == x;
          assert lk.keys[j] == x;
        }
      }
    }
  }

  /** A send of `Unlock` gives one key back and makes it free. */
  lemma SendReturns(s: State, l: LockId)
    requires Inv(s) && Enabled(s, Send(l))
    ensures LockOk(s, l)
    ensures var s', k := Apply(s, Send(l)), s.locks[l].keys[s.locks[l].pc.sent];
            Holds(s, l, k) && !Holds(s', l, k) && Free(s', k)
  {
    assert LockOk(s, l);
    var lk := s.locks[l];
    var k := lk.keys[lk.pc.sent];
    assert HeldOk(s, k, SendsOn(s, l), l, lk.pc.sent);
  }

  /** Steps that lead from one state to another. */
  ghost predicate Path(s: State, acts: seq<Action>, t: State)
    decreases |acts|
  {
    if acts == [] then s == t else Enabled(s, acts[0]) && Path(Apply(s, acts[0]), acts[1..], t)
  }

  lemma StepThen(s: State, a: Action, acts: seq<Action>, t: State)
    requires Enabled(s, a) && Path(Apply(s, a), acts, t)
    ensures Path(s, [a] + acts, t)
  {
    assert ([a] + acts)[1..] == acts;
  }

  /** The keys the lock has still to acquire are free. */
  ghost predicate RestFree(s: State, l: LockId)
    requires l in s.locks
  {
    forall j | |s.locks[l].chans| <= j < |s.locks[l].keys| :: Free(s, s.locks[l].keys[j])
  }

  lemma Distinct(keys: seq<Key>, i: nat, j: nat)
    requires StrictlySorted(keys) && i < j < |keys|
    ensures keys[i] != keys[j]
  {
    Irreflexive(keys[i]);
  }

  /** With the wanted key free, two steps acquire it and leave the others free. */
  lemma AcquiresNext(s: State, l: LockId) returns (t: State)
    requires Inv(s) && l in s.locks && s.locks[l].pc.Getting? && s.gc.NoGc? && RestFree(s, l)
    ensures LockOk(s, l) && Enabled(s, GetChan(l))
    ensures var s' := Apply(s, GetChan(l)); Enabled(s', Receive(l)) && t == Apply(s', Receive(l))
    ensures Inv(t) && t.gc.NoGc? && l in t.locks && RestFree(t, l) && t.locks[l].keys == s.locks[l].keys
    ensures |t.locks[l].chans| == |s.locks[l].chans| + 1
    ensures t.locks[l].pc == if |t.locks[l].chans| == |s.locks[l].keys| then Locked else Getting
  {
    assert LockOk(s, l);
    var lk, n := s.locks[l], |s.locks[l].chans|;
    GetsChannel(s, l);
    StepKeepsInv(s, GetChan(l));
    var s' := Apply(s, GetChan(l));
    assert Free(s, lk.keys[n]);
    t := Apply(s', Receive(l));
    StepKeepsInv(s', Receive(l));
    forall j | n + 1 <= j < |lk.keys|
      ensures Free(t, lk.keys[j])
    {
      Distinct(lk.keys, n, j);
      assert Free(s, lk.keys[j]);
    }
  }

  /** Where nobody else is in the way, `Lock` acquires all its keys. */
  lemma {:induction false} Acquires(s: State, l: LockId) returns (acts: seq<Action>, t: State)
    requires Inv(s) && l in s.locks && s.locks[l].pc.Getting? && s.gc.NoGc? && RestFree(s, l)
    ensures Path(s, acts, t) && Inv(t) && l in t.locks && t.locks[l].pc.Locked? && t.locks[l].keys == s.locks[l].keys
    decreases |s.locks[l].keys| - |s.locks[l].chans|
  {
    var next := AcquiresNext(s, l);
    acts, t := [], next;
    if !next.locks[l].pc.Locked? {
      acts, t := Acquires(next, l);
    }
    StepThen(Apply(s, GetChan(l)), Receive(l), acts, t);
    acts := [Receive(l)] + acts;
    StepThen(s, GetChan(l), acts, t);
    acts := [GetChan(l)] + acts;
  }

  lemma SendKeepsFree(s: State, l: LockId, k: Key)
    requires Inv(s) && Enabled(s, Send(l)) && Free(s, k)
    ensures Free(Apply(s, Send(l)), k)
  {
    assert LockOk(s, l);
    assert HeldOk(s, s.locks[l].keys[s.locks[l].pc.sent], SendsOn(s, l), l, s.locks[l].pc.sent);
  }

  lemma ReleasesNext(s: State, l: LockId) returns (t: State)
    requires Inv(s) && l in s.locks && s.locks[l].pc.Sending? && s.locks[l].pc.sent < |s.locks[l].chans|
    ensures s.locks[l].pc.sent < |s.locks[l].keys| && Enabled(s, Send(l)) && t == Apply(s, Send(l)) && Inv(t)
    ensures t.locks == s.locks[l := s.locks[l].(pc := Sending(s.locks[l].pc.sent + 1))] && t.gc == s.gc
    ensures Free(t, s.locks[l].keys[s.locks[l].pc.sent]) && forall k | Free(s, k) :: Free(t, k)
  {
    assert LockOk(s, l);
    var lk, n := s.locks[l], s.locks[l].pc.sent;
    assert HeldOk(s, lk.keys[n], lk.chans[n], l, n);
    StepKeepsInv(s, Send(l));
    SendReturns(s, l);
    t := Apply(s, Send(l));
    forall k | Free(s, k)
      ensures Free(t, k)
    {
      SendKeepsFree(s, l, k);
    }
  }

  /** The last step of the sending, when every channel is given back. */
  lemma ReleasesLast(s: State, l: LockId) returns (t: State)
    requires Inv(s) && l in s.locks && s.locks[l].pc.Sending? && s.locks[l].pc.sent >= |s.locks[l].chans|
    ensures Enabled(s, EndSend(l)) && t == Apply(s, EndSend(l)) && Inv(t)
    ensures l in t.locks && t.locks[l].pc.Cleaning? && t.gc == s.gc && forall k | Free(s, k) :: Free(t, k)
  {
    assert LockOk(s, l);
    t := Apply(s, EndSend(l));
    StepKeepsInv(s, EndSend(l));
  }

  /** The keys that are still to be given back. */
  ghost predicate RestReturned(s: State, l: LockId, t: State)
    requires l in s.locks && s.locks[l].pc.Sending?
  {
    forall j | s.locks[l].pc.sent <= j < |s.locks[l].chans| :: j < |s.locks[l].keys| && Free(t, s.locks[l].keys[j])
  }

  lemma RestReturnedStep(s: State, next: State, l: LockId, t: State)
    requires l in s.locks && s.locks[l].pc.Sending? && s.locks[l].pc.sent < |s.locks[l].keys|
    requires next.locks == s.locks[l := s.locks[l].(pc := Sending(s.locks[l].pc.sent + 1))]
    requires RestReturned(next, l, t) && Free(t, s.locks[l].keys[s.locks[l].pc.sent])
    ensures RestReturned(s, l, t)
  {
    var lk, lk' := s.locks[l], next.locks[l];
    forall j | lk.pc.sent <= j < |lk.chans|
      ensures j < |lk.keys| && Free(t, lk.keys[j])
    {
      assert j > lk.pc.sent ==> j < |lk'.keys| && Free(t, lk'.keys[j]);
    }
  }

  /** `Unlock` gives back all keys, whatever the collector is doing. */
  lemma {:induction false} Releases(s: State, l: LockId) returns (acts: seq<Action>, t: State)
    requires Inv(s) && l in s.locks && s.locks[l].pc.Sending?
    ensures Path(s, acts, t) && Inv(t) && l in t.locks && t.locks[l].pc.Cleaning? && t.gc == s.gc
    ensures RestReturned(s, l, t) && forall k | Free(s, k) :: Free(t, k)
    decreases |s.locks[l].chans| - s.locks[l].pc.sent
  {
    if s.locks[l].pc.sent < |s.locks[l].chans| {
      var next := ReleasesNext(s, l);
      acts, t := Releases(next, l);
      RestReturnedStep(s, next, l, t);
      StepThen(s, Send(l), acts, t);
      acts := [Send(l)] + acts;
    } else {
      t := ReleasesLast(s, l);
      StepThen(s, EndSend(l), [], t);
      acts := [EndSend(l)] + [];
    }
  }

  // Clean.

  /** The key was visited by the collection that started in step `i`, before step `m`. */
  ghost predicate Visited(acts: seq<Action>, i: nat, m: nat, k: Key)
    requires m <= |acts|
  {
    exists n | i < n < m :: acts[n] == CleanVisit(k)
  }

  /** And its channel had the token then. */
  ghost predicate FoundIdle(states: seq<State>, acts: seq<Action>, i: nat, m: nat, k: Key)
    requires m <= |acts| <= |states|
  {
    exists n | i < n < m :: acts[n] == CleanVisit(k) && Free(states[n], k)
  }

  /** The keys whose channel the collection has taken. */
  function Taken(gc: Gc): set<Key> {
    if gc.NoGc? then {} else gc.toDelete + if gc.Close? then {gc.key} else {}
  }

  /** What the collector has done to a key: it is to be visited until it was, and taken exactly if it was idle then. */
  ghost predicate Done(gc: Gc, k: Key, registered: bool, visited: bool, idle: bool) {
    !gc.NoGc? && (k in gc.todo <==> registered && !visited) && (k in Taken(gc) <==> idle)
  }

  lemma VisitedOn(states: seq<State>, acts: seq<Action>, i: nat, m: nat, k: Key)
    requires i < m < |acts| < |states|
    ensures Visited(acts, i, m + 1, k) <==> Visited(acts, i, m, k) || acts[m] == CleanVisit(k)
    ensures FoundIdle(states, acts, i, m + 1, k) <==> FoundIdle(states, acts, i, m, k) || (acts[m] == CleanVisit(k) && Free(states[m], k))
  {
    if Visited(acts, i, m, k) {
      var n :| i < n < m && acts[n] == CleanVisit(k);
    }
    if FoundIdle(states, acts, i, m, k) {
      var n :| i < n < m && acts[n] == CleanVisit(k) && Free(states[n], k);
    }
  }

  /** One step while the collector runs: only its visits change what it has seen, only idle channels are taken. */
  lemma GcStep(s: State, a: Action, k: Key, registered: bool, visited: bool, idle: bool)
    requires Inv(s) && Enabled(s, a) && !a.CleanEnd? && Done(s.gc, k, registered, visited, idle)
    ensures var s', here := Apply(s, a), a == CleanVisit(k);
            s'.registry == s.registry && Done(s'.gc, k, registered, visited || here, idle || (here && Free(s, k)))
  {
    if a == CleanVisit(k) {
      assert ChanOk(s, s.registry[k]);
    }
  }

  lemma GcStarts(s: State, owner: Option<LockId>, k: Key)
    requires Enabled(s, CleanStart(owner))
    ensures var s' := Apply(s, CleanStart(owner)); s'.registry == s.registry && Done(s'.gc, k, k in s.registry, false, false)
  {
  }

  lemma RunGcStep(states: seq<State>, acts: seq<Action>, m: nat, k: Key, registered: bool, visited: bool, idle: bool)
    requires Run(states, acts) && m < |acts| && !acts[m].CleanEnd? && Done(states[m].gc, k, registered, visited, idle)
    ensures states[m + 1].registry == states[m].registry
    ensures var here := acts[m] == CleanVisit(k);
            Done(states[m + 1].gc, k, registered, visited || here, idle || (here && Free(states[m], k)))
  {
    var s, a := states[m], acts[m];
    RunInv(states, acts, m);
    GcStep(s, a, k, registered, visited, idle);
  }

  lemma {:induction false} Collecting(states: seq<State>, acts: seq<Action>, i: nat, m: nat, k: Key)
    requires Run(states, acts) && i < m <= |acts| && acts[i].CleanStart? && forall n | i < n < m :: !acts[n].CleanEnd?
    ensures states[m].registry == states[i].registry
    ensures Done(states[m].gc, k, k in states[i].registry, Visited(acts, i, m, k), FoundIdle(states, acts, i, m, k))
  {
    if m == i + 1 {
      GcStarts(states[i], acts[i].owner, k);
    } else {
      Collecting(states, acts, i, m - 1, k);
      VisitedOn(states, acts, i, m - 1, k);
      RunGcStep(states, acts, m - 1, k, k in states[i].registry, Visited(acts, i, m - 1, k), FoundIdle(states, acts, i, m - 1, k));
    }
  }

  /**
   A whole `Clean`, with any steps of other goroutines in between: every registered key is visited, and exactly those
   whose channel had its token when visited are gone in the end. The others keep their channels.
   */
  lemma CleanExactly(states: seq<State>, acts: seq<Action>, i: nat, j: nat, k: Key)
    requires Run(states, acts) && i < j < |acts| && acts[i].CleanStart? && acts[j].CleanEnd? && forall n | i < n < j :: !acts[n].CleanEnd?
    ensures var before, after := states[i].registry, states[j + 1].registry;
            && (k in before ==> Visited(acts, i, j, k))
            && (k in after <==> k in before && !FoundIdle(states, acts, i, j, k))
            && (k in after ==> after[k] == before[k])
  {
    Collecting(states, acts, i, j, k);
    assert Enabled(states[j], acts[j]) && states[j + 1] == Apply(states[j], acts[j]);
  }

  // A whole cycle.

  lemma {:induction false} PathConcat(s: State, acts: seq<Action>, t: State, more: seq<Action>, u: State)
    requires Path(s, acts, t) && Path(t, more, u)
    ensures Path(s, acts + more, u)
    decreases |acts|
  {
    if acts == [] {
      assert acts + more == more;
    } else {
      PathConcat(Apply(s, acts[0]), acts[1..], t, more, u);
      assert (acts + more)[1..] == acts[1..] + more;
    }
  }

  /** The next visit of the collector, with the close after it where there is one. */
  lemma VisitsNext(s: State, k: Key) returns (acts: seq<Action>, t: State)
    requires Inv(s) && s.gc.Scan? && k in s.gc.todo
    ensures Path(s, acts, t) && Inv(t) && t.gc.Scan? && t.gc.todo == s.gc.todo - {k} && t.gc.owner == s.gc.owner && t.locks == s.locks
  {
    var s' := Apply(s, CleanVisit(k));
    StepKeepsInv(s, CleanVisit(k));
    if s'.gc.Scan? {
      acts, t := [], s';
    } else {
      StepKeepsInv(s', CleanClose);
      t := Apply(s', CleanClose);
      StepThen(s', CleanClose, [], t);
      acts := [CleanClose] + [];
    }
    StepThen(s, CleanVisit(k), acts, t);
    acts := [CleanVisit(k)] + acts;
  }

  /** The collector can always go on to its end, and leaves the lock that called it at rest. */
  lemma {:induction false} Cleans(s: State) returns (acts: seq<Action>, t: State)
    requires Inv(s) && s.gc.Scan?
    ensures Path(s, acts, t) && Inv(t) && t.gc.NoGc?
    ensures s.gc.owner.Some? ==> s.gc.owner.value in s.locks && t.locks == s.locks[s.gc.owner.value := s.locks[s.gc.owner.value].(pc := Idle)]
    decreases |s.gc.todo|
  {
    if s.gc.todo == {} {
      t := Apply(s, CleanEnd);
      StepKeepsInv(s, CleanEnd);
      StepThen(s, CleanEnd, [], t);
      acts := [CleanEnd] + [];
    } else {
      var k :| k in s.gc.todo;
      var first, next := VisitsNext(s, k);
      var more;
      more, t := Cleans(next);
      PathConcat(s, first, next, more, t);
      acts := first + more;
    }
  }

  /** With its keys free and the collector at rest, a lock at rest can be locked. */
  lemma CanLock(s: State, l: LockId) returns (acts: seq<Action>, t: State)
    requires Inv(s) && l in s.locks && s.locks[l].pc.Idle? && s.gc.NoGc? && forall k | k in s.locks[l].keys :: Free(s, k)
    ensures Path(s, acts, t) && Inv(t) && l in t.locks && t.locks[l].pc.Locked? && t.locks[l].keys == s.locks[l].keys
  {
    assert LockOk(s, l);
    var s' := Apply(s, BeginLock(l));
    StepKeepsInv(s, BeginLock(l));
    forall j | 0 <= j < |s.locks[l].keys|
      ensures Free(s', s.locks[l].keys[j])
    {
      assert Free(s, s.locks[l].keys[j]);
    }
    acts, t := Acquires(s', l);
    StepThen(s, BeginLock(l), acts, t);
    acts := [BeginLock(l)] + acts;
  }

  /** A lock that is locked can be unlocked, whoever waits for its keys, and is at rest afterwards. */
  lemma CanUnlock(s: State, l: LockId) returns (acts: seq<Action>, t: State)
    requires Inv(s) && l in s.locks && s.locks[l].pc.Locked? && s.gc.NoGc?
    ensures Path(s, acts, t) && Inv(t) && l in t.locks && t.locks[l].pc.Idle?
  {
    var s1 := Apply(s, BeginUnlock(l));
    StepKeepsInv(s, BeginUnlock(l));
    var first, s2 := Releases(s1, l);
    StepThen(s, BeginUnlock(l), first, s2);
    var s3 := Apply(s2, CleanStart(Some(l)));
    StepKeepsInv(s2, CleanStart(Some(l)));
    var more;
    more, t := Cleans(s3);
    StepThen(s2, CleanStart(Some(l)), more, t);
    PathConcat(s, [BeginUnlock(l)] + first, s2, [CleanStart(Some(l))] + more, t);
    acts := [BeginUnlock(l)] + first + ([CleanStart(Some(l))] + more);
  }
}
