/** Timed unlocking of keystore accounts (accounts/keystore/keystore.go) as a protocol of atomic steps. */
module Unlock {

  type Address = nat
  type Id = nat

  /** The abort channel of an unlock: none for an indefinite one. */
  datatype Abort = NoChannel | Open | Closed

  /** An `*unlocked`: its address and its channel. Its key has the same identity. */
  datatype Instance = Instance(addr: Address, abort: Abort)

  /** An `expire` call: in its select, or past the timer and about to take the mutex. */
  datatype Waiter = Waiter(addr: Address, inst: Id, fired: bool)

  datatype State = State(
    unlocked: map<Address, Id>,
    instances: map<Id, Instance>,
    waiters: map<Id, Waiter>,
    zeroed: set<Id>,
    next: Id)

  /** Steps: each holds the mutex throughout, or touches only its own goroutine. */
  datatype Action =
    | TimedUnlock(addr: Address, timed: bool)
    | Lock(addr: Address)
    | Aborted(g: Id)
    | TimerFires(g: Id)
    | Expires(g: Id)

  const INITIAL := State(map[], map[], map[], {}, 0)

  predicate Enabled(s: State, a: Action) {
    match a
    case TimedUnlock(_, _) => true
    case Lock(_) => true
    case Aborted(g) => g in s.waiters && !s.waiters[g].fired && s.waiters[g].inst in s.instances && s.instances[s.waiters[g].inst].abort.Closed?
    case TimerFires(g) => g in s.waiters && !s.waiters[g].fired
    case Expires(g) => g in s.waiters && s.waiters[g].fired
  }

  /** Closing a closed channel panics. */
  predicate Panics(s: State, a: Action) {
    a.TimedUnlock? && a.addr in s.unlocked && s.unlocked[a.addr] in s.instances && s.instances[s.unlocked[a.addr]].abort.Closed?
  }

  /** The address has an entry, with a channel or without. */
  predicate Has(s: State, x: Address, timed: bool) {
    x in s.unlocked && s.unlocked[x] in s.instances && s.instances[s.unlocked[x]].abort.NoChannel? == !timed
  }

  function CloseAbort(s: State, u: Id): map<Id, Instance>
    requires u in s.instances
  {
    s.instances[u := Instance(s.instances[u].addr, Closed)]
  }

  function Step(s: State, a: Action): State
    requires Enabled(s, a)
  {
    match a
    case TimedUnlock(addr, timed) =>
      // The decrypted key is new: it and its instance are number s.next.
      var k := s.next;
      if Has(s, addr, false) then
        s.(zeroed := s.zeroed + {k}, next := k + 1)
      else
        var closed := if Has(s, addr, true) then CloseAbort(s, s.unlocked[addr]) else s.instances;
        State(
          s.unlocked[addr := k],
          closed[k := Instance(addr, if timed then Open else NoChannel)],
          if timed then s.waiters[k := Waiter(addr, k, false)] else s.waiters,
          s.zeroed,
          k + 1)
    case Lock(addr) =>
      if addr in s.unlocked then s.(waiters := s.waiters[s.next := Waiter(addr, s.unlocked[addr], false)], next := s.next + 1) else s
    case Aborted(g) => s.(waiters := s.waiters - {g})
    case TimerFires(g) => s.(waiters := s.waiters[g := s.waiters[g].(fired := true)])
    case Expires(g) =>
      var w := s.waiters[g];
      if w.addr in s.unlocked && s.unlocked[w.addr] == w.inst then
        s.(unlocked := s.unlocked - {w.addr}, waiters := s.waiters - {g}, zeroed := s.zeroed + {w.inst})
      else
        s.(waiters := s.waiters - {g})
  }

  /** Every unlocked entry is an instance for its address, its key intact and its channel not closed. */
  ghost predicate EntryOk(s: State, x: Address)
    requires x in s.unlocked
  {
    var u := s.unlocked[x];
    u in s.instances && s.instances[u].addr == x && !s.instances[u].abort.Closed? && u !in s.zeroed
  }

  /** A timed entry has a goroutine that will expire it. */
  ghost predicate Watched(s: State, u: Id) {
    exists g :: g in s.waiters && s.waiters[g].inst == u
  }

  ghost predicate Inv(s: State) {
    && (forall x | x in s.unlocked :: EntryOk(s, x))
    && (forall x | x in s.unlocked && s.instances[s.unlocked[x]].abort.Open? :: Watched(s, s.unlocked[x]))
    && (forall u | u in s.instances :: u < s.next)
    && (forall u | u in s.zeroed :: u < s.next)
    && (forall g | g in s.waiters :: g < s.next && s.waiters[g].inst in s.instances && s.instances[s.waiters[g].inst].addr == s.waiters[g].addr)
  }

  lemma StepKeepsInv(s: State, a: Action)
    requires Inv(s) && Enabled(s, a)
    ensures Inv(Step(s, a)) && !Panics(s, a)
  {
    var s' := Step(s, a);
    forall x | x in s'.unlocked && s'.instances[s'.unlocked[x]].abort.Open?
      ensures Watched(s', s'.unlocked[x])
    {
      WatchStays(s, a, x);
    }
  }

  /** The goroutine of a timed entry stays, or is a new one. */
  lemma WatchStays(s: State, a: Action, x: Address)
    requires Inv(s) && Enabled(s, a)
    requires var s' := Step(s, a); x in s'.unlocked && s'.unlocked[x] in s'.instances && s'.instances[s'.unlocked[x]].abort.Open?
    ensures Watched(Step(s, a), Step(s, a).unlocked[x])
  {
    var s' := Step(s, a);
    var u := s'.unlocked[x];
    if x in s.unlocked && s.unlocked[x] == u {
      assert EntryOk(s, x) && s.instances[u].abort.Open?;
      var g :| g in s.waiters && s.waiters[g].inst == u;
      assert g in s'.waiters && s'.waiters[g].inst == u;
    } else {
      assert u in s'.waiters && s'.waiters[u].inst == u;
    }
  }

  /** The states after a run of steps. */
  ghost predicate Run(s: State, steps: seq<Action>, t: State)
    decreases |steps|
  {
    if steps == [] then s == t
    else Enabled(s, steps[0]) && Run(Step(s, steps[0]), steps[1..], t)
  }

  /** In every state a run can reach, unlocked keys are intact and no step closes a channel twice. */
  lemma {:induction false} RunKeepsInv(s: State, steps: seq<Action>, t: State)
    requires Inv(s) && Run(s, steps, t)
    ensures Inv(t) && forall a | Enabled(t, a) :: !Panics(t, a)
    decreases |steps|
  {
    if steps != [] {
      StepKeepsInv(s, steps[0]);
      RunKeepsInv(Step(s, steps[0]), steps[1..], t);
    } else {
      forall a | Enabled(t, a)
        ensures !Panics(t, a)
      {
        StepKeepsInv(t, a);
      }
    }
  }

  lemma InitialInv()
    ensures Inv(INITIAL)
  {
  }

  // What a step does to an entry.

  /** The entry of an address other than the step's: same key, same channel, key intact. */
  ghost predicate SameEntry(s: State, s': State, y: Address) {
    && (y in s'.unlocked <==> y in s.unlocked)
    && (y in s.unlocked && s.unlocked[y] in s.instances ==>
          var u := s.unlocked[y];
          s'.unlocked[y] == u && u in s'.instances && s'.instances[u] == s.instances[u] && (u in s'.zeroed <==> u in s.zeroed))
  }

  /** A goroutine that is about to wait for the timer of the entry. */
  ghost predicate WatchedFor(s: State, x: Address, u: Id) {
    exists g :: g in s.waiters && s.waiters[g] == Waiter(x, u, false)
  }

  /**
   `TimedUnlock` leaves its address unlocked and the others as they were. An indefinite unlock is kept and the new key
   zeroed; else the entry is new, its key intact, with a channel and a timer exactly if timed, and the channel of the
   entry it replaced is closed.
   */
  lemma TimedUnlockUnlocks(s: State, x: Address, timed: bool)
    requires Inv(s)
    ensures var s' := Step(s, TimedUnlock(x, timed));
            && x in s'.unlocked && s'.unlocked[x] in s'.instances && s'.unlocked[x] !in s'.zeroed
            && (forall y | y != x :: SameEntry(s, s', y))
            && if x in s.unlocked && s.instances[s.unlocked[x]].abort.NoChannel? then
                 SameEntry(s, s', x) && s'.waiters == s.waiters && s.next in s'.zeroed
               else
                 var u := s'.unlocked[x];
                 && u !in s.instances && s'.instances[u] == Instance(x, if timed then Open else NoChannel)
                 && (timed ==> WatchedFor(s', x, u)) && s'.zeroed == s.zeroed
                 && (x in s.unlocked ==> s'.instances[s.unlocked[x]].abort.Closed?)
  {
    var s' := Step(s, TimedUnlock(x, timed));
    if x in s.unlocked {
      assert EntryOk(s, x);
    }
    forall y | y != x
      ensures SameEntry(s, s', y)
    {
      if y in s.unlocked {
        assert EntryOk(s, y);
      }
    }
    if timed && s'.unlocked != s.unlocked {
      assert s'.waiters[s.next] == Waiter(x, s.next, false);
    }
  }

  /** `Lock` of an unlocked address starts a wait with a timer of zero; of a locked one it does nothing. */
  lemma LockStarts(s: State, x: Address)
    requires Inv(s)
    ensures var s' := Step(s, Lock(x));
            if x in s.unlocked then s' == s.(waiters := s.waiters[s.next := Waiter(x, s.unlocked[x], false)], next := s.next + 1) && s.next !in s.waiters
            else s' == s
  {
  }

  /** Alone, `Lock` removes the entry, zeroes its key and leaves every other address as it was. */
  lemma LockAlone(s: State, x: Address)
    requires Inv(s) && x in s.unlocked
    ensures Enabled(Step(s, Lock(x)), TimerFires(s.next))
    ensures var s2 := Step(Step(s, Lock(x)), TimerFires(s.next));
            && Enabled(s2, Expires(s.next))
            && var t := Step(s2, Expires(s.next));
               x !in t.unlocked && s.unlocked[x] in t.zeroed && t.waiters == s.waiters && forall y | y != x :: SameEntry(s, t, y)
  {
    assert EntryOk(s, x);
    var t := Step(Step(Step(s, Lock(x)), TimerFires(s.next)), Expires(s.next));
    assert s.next !in s.waiters;
    assert t.waiters == s.waiters;
    forall y | y != x
      ensures SameEntry(s, t, y)
    {
      if y in s.unlocked {
        assert EntryOk(s, y);
      }
    }
  }

  /**
   Over one step of any kind: an entry goes exactly when a timer for it has fired and expires it, and is new exactly when
   its address is unlocked anew. A waiting goroutine ends exactly when it expires or is aborted.
   */
  lemma StepExactly(s: State, a: Action, x: Address, g: Id)
    requires Inv(s) && Enabled(s, a)
    ensures var s' := Step(s, a);
            && (x in s.unlocked && x !in s'.unlocked <==> x in s.unlocked && a.Expires? && s.waiters[a.g].inst == s.unlocked[x])
            && (x in s'.unlocked && (x !in s.unlocked || s'.unlocked[x] != s.unlocked[x]) <==> Renews(s, a, x))
            && (g in s.waiters && g !in s'.waiters <==> a == Expires(g) || a == Aborted(g))
  {
    if x in s.unlocked {
      assert EntryOk(s, x);
    }
  }

  /** A timer that fires removes the entry it was started for, or nothing; other entries stay. */
  lemma ExpiresOnlyItsOwn(s: State, g: Id, x: Address)
    requires Inv(s) && Enabled(s, Expires(g)) && x in s.unlocked
    ensures var s' := Step(s, Expires(g));
            if s.unlocked[x] == s.waiters[g].inst then x !in s'.unlocked && s.unlocked[x] in s'.zeroed
            else x in s'.unlocked && s'.unlocked[x] == s.unlocked[x] && s.unlocked[x] !in s'.zeroed
  {
    assert EntryOk(s, x);
  }

  /** A replaced timed unlock is never removed by the timer it replaced. */
  lemma ReplacedTimerIsHarmless(s: State, x: Address, timed: bool, g: Id)
    requires Inv(s) && x in s.unlocked && s.instances[s.unlocked[x]].abort.Open?
    requires g in s.waiters && s.waiters[g].inst == s.unlocked[x] && s.waiters[g].fired
    ensures var s1 := Step(s, TimedUnlock(x, timed));
            Inv(s1) && Step(s1, Expires(g)).unlocked == s1.unlocked && Step(s1, Expires(g)).zeroed == s1.zeroed
  {
    StepKeepsInv(s, TimedUnlock(x, timed));
  }

  /** A timer that is still waiting when its unlock is replaced can end at once, and its end changes nothing else. */
  lemma ReplacedTimerEnds(s: State, x: Address, timed: bool, g: Id)
    requires Inv(s) && x in s.unlocked && s.instances[s.unlocked[x]].abort.Open?
    requires g in s.waiters && s.waiters[g].inst == s.unlocked[x] && !s.waiters[g].fired
    ensures !Enabled(s, Aborted(g))
    ensures var s1 := Step(s, TimedUnlock(x, timed));
            Enabled(s1, Aborted(g)) && Step(s1, Aborted(g)) == s1.(waiters := s1.waiters - {g})
  {
    assert EntryOk(s, x);
  }

  /** An address unlocked indefinitely, and no `Lock` under way for it. */
  ghost predicate Indefinite(s: State, x: Address, u: Id) {
    x in s.unlocked && s.unlocked[x] == u && u in s.instances && s.instances[u].abort.NoChannel? && !Watched(s, u)
  }

  lemma IndefiniteStep(s: State, a: Action, x: Address, u: Id)
    requires Inv(s) && Enabled(s, a) && Indefinite(s, x, u) && a != Lock(x)
    ensures Indefinite(Step(s, a), x, u)
  {
    var s' := Step(s, a);
    assert EntryOk(s, x);
    forall g | g in s'.waiters
      ensures s'.waiters[g].inst != u
    {
      if g in s.waiters {
        assert s.waiters[g].inst != u;
      }
      if a.Lock? && a.addr in s.unlocked {
        assert EntryOk(s, a.addr);
      }
    }
  }

  /** An indefinite unlock persists, with the same key, through every run without a `Lock` of its address. */
  lemma {:induction false} IndefinitePersists(s: State, steps: seq<Action>, t: State, x: Address, u: Id)
    requires Inv(s) && Run(s, steps, t) && Indefinite(s, x, u) && Lock(x) !in steps
    ensures Indefinite(t, x, u) && u !in t.zeroed
    decreases |steps|
  {
    if steps != [] {
      StepKeepsInv(s, steps[0]);
      IndefiniteStep(s, steps[0], x, u);
      IndefinitePersists(Step(s, steps[0]), steps[1..], t, x, u);
    } else {
      assert EntryOk(s, x);
    }
  }

  lemma WaiterExpires(s: State, x: Address, g: Id)
    requires Inv(s) && x in s.unlocked && g in s.waiters && s.waiters[g].inst == s.unlocked[x]
    ensures ExpiresNow(s, x, g)
  {
    assert EntryOk(s, x);
    if !s.waiters[g].fired {
      StepKeepsInv(s, TimerFires(g));
    }
  }

  // What `Lock` achieves.

  /** The step unlocks the address anew: it was locked, or its timed unlock is replaced. */
  predicate Renews(s: State, a: Action, x: Address) {
    a.TimedUnlock? && a.addr == x && !Has(s, x, false)
  }

  ghost predicate NeverRenewed(s: State, steps: seq<Action>, x: Address)
    decreases |steps|
  {
    steps == [] || (Enabled(s, steps[0]) && !Renews(s, steps[0], x) && NeverRenewed(Step(s, steps[0]), steps[1..], x))
  }

  /** The address has the entry `u` or none. */
  predicate AtMost(s: State, x: Address, u: Id) {
    x in s.unlocked ==> s.unlocked[x] == u
  }

  lemma {:induction false} NotRenewed(s: State, steps: seq<Action>, t: State, x: Address, u: Id)
    requires Inv(s) && Run(s, steps, t) && NeverRenewed(s, steps, x) && AtMost(s, x, u)
    ensures Inv(t) && AtMost(t, x, u)
    decreases |steps|
  {
    if steps != [] {
      StepKeepsInv(s, steps[0]);
      assert AtMost(Step(s, steps[0]), x, u) by {
        if x in s.unlocked {
          assert EntryOk(s, x);
        }
      }
      NotRenewed(Step(s, steps[0]), steps[1..], t, x, u);
    }
  }

  /** A goroutine waits for the same entry to its end. */
  lemma {:induction false} WaiterSame(s: State, steps: seq<Action>, t: State, g: Id)
    requires Inv(s) && Run(s, steps, t) && g < s.next && g in t.waiters
    ensures g in s.waiters && t.waiters[g].inst == s.waiters[g].inst && t.waiters[g].addr == s.waiters[g].addr
    decreases |steps|
  {
    if steps != [] {
      StepKeepsInv(s, steps[0]);
      WaiterSame(Step(s, steps[0]), steps[1..], t, g);
    }
  }

  /** `Lock` returns: its timer fired and it looked at the entry, or the channel it waited on was closed. */
  ghost predicate Returns(s: State, g: Id, t: State) {
    (Enabled(s, Expires(g)) && t == Step(s, Expires(g))) || (Enabled(s, Aborted(g)) && t == Step(s, Aborted(g)))
  }

  /** Whatever happens in between, `Lock` returns with the account locked if no step unlocked it anew. */
  lemma LockLocks(s: State, x: Address, steps: seq<Action>, t: State, t': State)
    requires Inv(s) && x in s.unlocked
    requires Run(Step(s, Lock(x)), steps, t) && NeverRenewed(Step(s, Lock(x)), steps, x)
    requires Returns(t, s.next, t')
    ensures x !in t'.unlocked
  {
    var u := s.unlocked[x];
    StepKeepsInv(s, Lock(x));
    WaiterSame(Step(s, Lock(x)), steps, t, s.next);
    NotRenewed(Step(s, Lock(x)), steps, t, x, u);
    if x in t.unlocked {
      assert EntryOk(t, x);
    }
  }

  /**
   One `TimedUnlock` of the address between `Lock` and its return: the account is left unlocked if and only if the entry
   that `Lock` found was a timed one. An indefinite unlock is not replaced, so `Lock` removes it.
   */
  lemma LockRaces(s: State, x: Address, timed: bool, fired: bool, t': State)
    requires Inv(s) && x in s.unlocked
    requires var s2 := Step(Step(s, Lock(x)), TimedUnlock(x, timed));
             Returns(if fired then Step(s2, TimerFires(s.next)) else s2, s.next, t')
    ensures x in t'.unlocked <==> s.instances[s.unlocked[x]].abort.Open?
  {
    assert EntryOk(s, x);
    StepKeepsInv(s, Lock(x));
    assert EntryOk(Step(s, Lock(x)), x);
  }

  /** A timed unlock is never left without end: two steps of a goroutine it has are enough to lock the account. */
  lemma TimedUnlockCanExpire(s: State, x: Address)
    requires Inv(s) && x in s.unlocked && s.instances[s.unlocked[x]].abort.Open?
    ensures exists g :: g in s.waiters && s.waiters[g].inst == s.unlocked[x] && ExpiresNow(s, x, g)
  {
    var u := s.unlocked[x];
    assert EntryOk(s, x) && Watched(s, u);
    var g :| g in s.waiters && s.waiters[g].inst == u;
    WaiterExpires(s, x, g);
  }

  /** Firing the timer, if it has not fired, and expiring lock the account. */
  ghost predicate ExpiresNow(s: State, x: Address, g: Id)
    requires Inv(s) && g in s.waiters
  {
    var s1 := if s.waiters[g].fired then s else Step(s, TimerFires(g));
    Inv(s1) && Enabled(s1, Expires(g)) && x !in Step(s1, Expires(g)).unlocked
  }
}
