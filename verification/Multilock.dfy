/**
 The multi-key lock of utils/lock.go as a transition system. Channels have capacity one; a channel
 that holds its token is free. The registry and the collector `Clean` share a global lock, so `getChan`
 is one step taken while no collection runs; `Clean` itself is split where other goroutines can interleave.
 */
module Multilock {
  import opened Wrappers
  import opened Lex

  type Key = string
  type ChanId = nat
  type LockId = nat

  /** Where the one token of a channel is; once received, it is with the receiver until it is sent back. */
  datatype Token = InChannel | WithLock(l: LockId, j: nat) | WithCollector

  datatype Chan = Chan(open: bool, token: Token)

  /** Where a `Lock` object is: in `Lock`, held, in `Unlock`, or at rest. */
  datatype Pc =
    | Idle
    | Getting
    | Receiving(ch: ChanId)
    | Locked
    | Sending(sent: nat)
    | Cleaning

  /** `chans` is `lk.chans`: `chans[j]` was received for `keys[j]`. */
  datatype Lock = Lock(keys: seq<Key>, chans: seq<ChanId>, pc: Pc)

  /** A run of `Clean` on behalf of an `Unlock`, or of a direct caller. */
  datatype Gc =
    | NoGc
    | Scan(owner: Option<LockId>, todo: set<Key>, toDelete: set<Key>)
    | Close(owner: Option<LockId>, todo: set<Key>, toDelete: set<Key>, key: Key)

  datatype State = State(registry: map<Key, ChanId>, chans: seq<Chan>, locks: map<LockId, Lock>, gc: Gc)

  const Init := State(map[], [], map[], NoGc)

  datatype Action =
    | New(l: LockId, keys: seq<Key>)
    | BeginLock(l: LockId)
    | GetChan(l: LockId)
    | Receive(l: LockId)
    | BeginUnlock(l: LockId)
    | Send(l: LockId)
    | EndSend(l: LockId)
    | CleanStart(owner: Option<LockId>)
    | CleanVisit(k: Key)
    | CleanClose
    | CleanEnd

  /** A step can be taken: channel operations that would block are not enabled; sends and closes may panic. */
  predicate Enabled(s: State, a: Action) {
    match a
    case New(l, keys) => l !in s.locks && keys != [] && StrictlySorted(keys)
    case BeginLock(l) => l in s.locks && s.locks[l].pc.Idle?
    case GetChan(l) => l in s.locks && s.locks[l].pc.Getting? && |s.locks[l].chans| < |s.locks[l].keys| && s.gc.NoGc?
    case Receive(l) => l in s.locks && s.locks[l].pc.Receiving? && s.locks[l].pc.ch < |s.chans|
                       && (s.chans[s.locks[l].pc.ch].token.InChannel? || !s.chans[s.locks[l].pc.ch].open)
    case BeginUnlock(l) => l in s.locks && s.locks[l].pc.Locked?
    case Send(l) => l in s.locks && s.locks[l].pc.Sending? && s.locks[l].pc.sent < |s.locks[l].chans|
                    && SendsOn(s, l) < |s.chans| && !s.chans[SendsOn(s, l)].token.InChannel?
    case EndSend(l) => l in s.locks && s.locks[l].pc.Sending? && s.locks[l].pc.sent == |s.locks[l].chans|
    case CleanStart(owner) => s.gc.NoGc? && (owner.Some? ==> owner.value in s.locks && s.locks[owner.value].pc.Cleaning?)
    case CleanVisit(k) => s.gc.Scan? && k in s.gc.todo && k in s.registry && s.registry[k] < |s.chans|
    case CleanClose => s.gc.Close? && s.gc.key in s.registry && s.registry[s.gc.key] < |s.chans|
    case CleanEnd => s.gc.Scan? && s.gc.todo == {} && (s.gc.owner.Some? ==> s.gc.owner.value in s.locks)
  }

  function SendsOn(s: State, l: LockId): ChanId
    requires l in s.locks && s.locks[l].pc.Sending? && s.locks[l].pc.sent < |s.locks[l].chans|
  {
    s.locks[l].chans[s.locks[l].pc.sent]
  }

  function SetLock(s: State, l: LockId, lk: Lock): State {
    s.(locks := s.locks[l := lk])
  }

  function Apply(s: State, a: Action): State
    requires Enabled(s, a)
  {
    match a
    case New(l, keys) => SetLock(s, l, Lock(keys, [], Idle))
    case BeginLock(l) => SetLock(s, l, s.locks[l].(chans := [], pc := Getting))
    case GetChan(l) =>
      var lk := s.locks[l];
      var key := lk.keys[|lk.chans|];
      if key in s.registry then SetLock(s, l, lk.(pc := Receiving(s.registry[key])))
      else
        var ch := |s.chans|;
        SetLock(s, l, lk.(pc := Receiving(ch))).(registry := s.registry[key := ch], chans := s.chans + [Chan(true, InChannel)])
    case Receive(l) =>
      var lk := s.locks[l];
      var ch := lk.pc.ch;
      if s.chans[ch].token.InChannel? then
        var pc := if |lk.chans| + 1 >= |lk.keys| then Locked else Getting;
        SetLock(s, l, lk.(chans := lk.chans + [ch], pc := pc)).(chans := s.chans[ch := s.chans[ch].(token := WithLock(l, |lk.chans|))])
      else SetLock(s, l, lk.(pc := Getting))
    case BeginUnlock(l) => SetLock(s, l, s.locks[l].(pc := Sending(0)))
    case Send(l) =>
      var ch := SendsOn(s, l);
      SetLock(s, l, s.locks[l].(pc := Sending(s.locks[l].pc.sent + 1))).(chans := s.chans[ch := s.chans[ch].(token := InChannel)])
    case EndSend(l) => SetLock(s, l, s.locks[l].(chans := [], pc := Cleaning))
    case CleanStart(owner) => s.(gc := Scan(owner, s.registry.Keys, {}))
    case CleanVisit(k) =>
      // A receive succeeds on a channel with its token and on a closed one.
      var ch := s.registry[k];
      if s.chans[ch].token.InChannel? || !s.chans[ch].open then
        s.(chans := s.chans[ch := s.chans[ch].(token := WithCollector)], gc := Close(s.gc.owner, s.gc.todo - {k}, s.gc.toDelete, k))
      else s.(gc := Scan(s.gc.owner, s.gc.todo - {k}, s.gc.toDelete))
    case CleanClose =>
      var ch := s.registry[s.gc.key];
      s.(chans := s.chans[ch := s.chans[ch].(open := false)], gc := Scan(s.gc.owner, s.gc.todo, s.gc.toDelete + {s.gc.key}))
    case CleanEnd =>
      var s' := s.(registry := s.registry - s.gc.toDelete, gc := NoGc);
      if s.gc.owner.Some? then SetLock(s', s.gc.owner.value, s.locks[s.gc.owner.value].(pc := Idle)) else s'
  }

  /** The operations that Go would answer with a panic: sending on, or closing, a closed channel. */
  predicate Panics(s: State, a: Action)
    requires Enabled(s, a)
  {
    match a
    case Send(l) => !s.chans[SendsOn(s, l)].open
    case CleanClose => !s.chans[s.registry[s.gc.key]].open
    case _ => false
  }

  /** How many of its channels the lock has already given back. */
  function Returned(lk: Lock): nat {
    if lk.pc.Sending? then lk.pc.sent else 0
  }

  /** Lock `l` holds its `j`-th key. */
  predicate Owns(s: State, l: LockId, j: int) {
    l in s.locks && Returned(s.locks[l]) <= j < |s.locks[l].chans|
  }

  predicate ValidLock(lk: Lock) {
    && lk.keys != [] && StrictlySorted(lk.keys)
    && |lk.chans| <= |lk.keys|
    && match lk.pc
       case Getting => |lk.chans| < |lk.keys|
       case Receiving(_) => |lk.chans| < |lk.keys|
       case Locked => |lk.chans| == |lk.keys|
       case Sending(sent) => sent <= |lk.chans|
       case _ => lk.chans == []
  }

  /** Keys whose channel the running collection has closed but not yet unregistered. */
  function Closed(gc: Gc): set<Key> {
    if gc.NoGc? then {} else gc.toDelete
  }

  /** The registry names each channel once; registered channels are open unless being collected. */
  predicate RegistryOk(s: State) {
    && (forall k | k in s.registry :: s.registry[k] < |s.chans|)
    && (forall k | k in s.registry :: s.chans[s.registry[k]].open <==> k !in Closed(s.gc))
    && (forall k, k' | k in s.registry && k' in s.registry && s.registry[k] == s.registry[k'] :: k == k')
  }

  predicate GcOk(s: State)
    requires RegistryOk(s)
  {
    s.gc.NoGc? || (
      && s.gc.toDelete <= s.registry.Keys && s.gc.todo <= s.registry.Keys && s.gc.todo !! s.gc.toDelete
      && (s.gc.Close? ==>
            && s.gc.key in s.registry && s.gc.key !in s.gc.todo && s.gc.key !in s.gc.toDelete
            && s.chans[s.registry[s.gc.key]].token == WithCollector)
      && (s.gc.owner.Some? ==> s.gc.owner.value in s.locks && s.locks[s.gc.owner.value].pc.Cleaning?)
    )
  }

  /** A held key's channel is registered under that key, open and empty. */
  predicate HeldOk(s: State, key: Key, ch: ChanId, l: LockId, j: nat) {
    key in s.registry && s.registry[key] == ch && ch < |s.chans| && s.chans[ch] == Chan(true, WithLock(l, j))
  }

  predicate LockOk(s: State, l: LockId)
    requires l in s.locks
  {
    var lk := s.locks[l];
    && ValidLock(lk)
    && (forall j | Returned(lk) <= j < |lk.chans| :: HeldOk(s, lk.keys[j], lk.chans[j], l, j))
    // A channel to receive from is, while open, the one registered for the wanted key.
    && (lk.pc.Receiving? ==>
          && lk.pc.ch < |s.chans|
          && (s.chans[lk.pc.ch].open ==> lk.keys[|lk.chans|] in s.registry && s.registry[lk.keys[|lk.chans|]] == lk.pc.ch))
  }

  /** The token of an open channel is in the channel, with the lock that holds its key, or with the collector. */
  predicate ChanOk(s: State, ch: ChanId)
    requires RegistryOk(s) && GcOk(s) && ch < |s.chans|
  {
    var c := s.chans[ch];
    && (c.token.InChannel? ==> c.open)
    && (c.open && c.token.WithLock? ==> Owns(s, c.token.l, c.token.j) && s.locks[c.token.l].chans[c.token.j] == ch)
    && (c.open && c.token.WithCollector? ==> s.gc.Close? && s.registry[s.gc.key] == ch)
  }

  predicate Inv(s: State) {
    && RegistryOk(s) && GcOk(s)
    && (forall l | l in s.locks :: LockOk(s, l))
    && (forall ch | 0 <= ch < |s.chans| :: ChanOk(s, ch))
  }

  lemma KeepNew(s: State, l: LockId, keys: seq<Key>)
    requires Inv(s) && Enabled(s, New(l, keys))
    ensures Inv(Apply(s, New(l, keys))) && !Panics(s, New(l, keys))
  {
    var s' := Apply(s, New(l, keys));
    assert RegistryOk(s') && GcOk(s');
    forall m | m in s'.locks
      ensures LockOk(s', m)
    {
      assert m in s.locks ==> LockOk(s, m);
    }
    forall c | 0 <= c < |s'.chans|
      ensures ChanOk(s', c)
    {
      assert c < |s.chans| ==> ChanOk(s, c);
    }
  }

  lemma KeepBeginLock(s: State, l: LockId)
    requires Inv(s) && Enabled(s, BeginLock(l))
    ensures Inv(Apply(s, BeginLock(l))) && !Panics(s, BeginLock(l))
  {
    var s' := Apply(s, BeginLock(l));
    assert LockOk(s, l);
    assert RegistryOk(s') && GcOk(s');
    forall m | m in s'.locks
      ensures LockOk(s', m)
    {
      assert m in s.locks ==> LockOk(s, m);
    }
    forall c | 0 <= c < |s'.chans|
      ensures ChanOk(s', c)
    {
      assert c < |s.chans| ==> ChanOk(s, c);
    }
  }

  predicate Registered(s: State, l: LockId)
    requires Enabled(s, GetChan(l))
  {
    s.locks[l].keys[|s.locks[l].chans|] in s.registry
  }

  lemma KeepGetKnown(s: State, l: LockId)
    requires Inv(s) && Enabled(s, GetChan(l)) && Registered(s, l)
    ensures Inv(Apply(s, GetChan(l)))
  {
    var s' := Apply(s, GetChan(l));
    assert LockOk(s, l);
    assert RegistryOk(s') && GcOk(s');
    forall m | m in s'.locks
      ensures LockOk(s', m)
    {
      assert m in s.locks ==> LockOk(s, m);
    }
    forall c | 0 <= c < |s'.chans|
      ensures ChanOk(s', c)
    {
      assert c < |s.chans| ==> ChanOk(s, c);
    }
  }

  lemma GetNewTables(s: State, l: LockId)
    requires Inv(s) && Enabled(s, GetChan(l)) && !Registered(s, l)
    ensures var s' := Apply(s, GetChan(l)); RegistryOk(s') && GcOk(s')
  {
    var s' := Apply(s, GetChan(l));
    var key, ch := s.locks[l].keys[|s.locks[l].chans|], |s.chans|;
    assert s'.chans == s.chans + [Chan(true, InChannel)] && s'.registry == s.registry[key := ch] && s'.gc == s.gc;
    assert RegistryOk(s');
  }

  lemma GetNewLock(s: State, l: LockId, m: LockId)
    requires Inv(s) && Enabled(s, GetChan(l)) && !Registered(s, l) && m in s.locks
    ensures LockOk(Apply(s, GetChan(l)), m)
  {
    var s' := Apply(s, GetChan(l));
    var lk := s.locks[m];
    assert LockOk(s, m) && LockOk(s, l);
    assert s'.locks[m].keys == lk.keys && s'.locks[m].chans == lk.chans;
    forall j | Returned(lk) <= j < |lk.chans|
      ensures HeldOk(s', lk.keys[j], lk.chans[j], m, j)
    {
      assert HeldOk(s, lk.keys[j], lk.chans[j], m, j);
    }
  }

  lemma KeepGetNew(s: State, l: LockId)
    requires Inv(s) && Enabled(s, GetChan(l)) && !Registered(s, l)
    ensures Inv(Apply(s, GetChan(l)))
  {
    var s' := Apply(s, GetChan(l));
    GetNewTables(s, l);
    forall m | m in s'.locks
      ensures LockOk(s', m)
    {
      GetNewLock(s, l, m);
    }
    forall c | 0 <= c < |s'.chans|
      ensures ChanOk(s', c)
    {
      assert c < |s.chans| ==> ChanOk(s, c);
    }
  }

  lemma KeepReceiveToken(s: State, l: LockId)
    requires Inv(s) && Enabled(s, Receive(l)) && s.chans[s.locks[l].pc.ch].token.InChannel?
    ensures Inv(Apply(s, Receive(l)))
  {
    var s' := Apply(s, Receive(l));
    var lk, lk', ch := s.locks[l], s'.locks[l], s.locks[l].pc.ch;
    var n := |lk.chans|;
    assert LockOk(s, l) && ChanOk(s, ch);
    assert lk'.keys == lk.keys && lk'.chans == lk.chans + [ch] && Returned(lk') == 0 && !lk'.pc.Receiving?;
    assert s'.chans == s.chans[ch := Chan(true, WithLock(l, n))];
    assert RegistryOk(s') && GcOk(s');
    forall j | 0 <= j < |lk'.chans|
      ensures HeldOk(s', lk'.keys[j], lk'.chans[j], l, j)
    {
      assert j < n ==> HeldOk(s, lk.keys[j], lk.chans[j], l, j);
    }
    forall m | m in s'.locks
      ensures LockOk(s', m)
    {
      assert LockOk(s, m);
    }
    forall c | 0 <= c < |s'.chans|
      ensures ChanOk(s', c)
    {
      assert ChanOk(s, c);
    }
  }

  lemma KeepReceiveClosed(s: State, l: LockId)
    requires Inv(s) && Enabled(s, Receive(l)) && !s.chans[s.locks[l].pc.ch].token.InChannel?
    ensures Inv(Apply(s, Receive(l)))
  {
    var s' := Apply(s, Receive(l));
    assert LockOk(s, l);
    assert RegistryOk(s') && GcOk(s');
    forall m | m in s'.locks
      ensures LockOk(s', m)
    {
      assert m in s.locks ==> LockOk(s, m);
    }
    forall c | 0 <= c < |s'.chans|
      ensures ChanOk(s', c)
    {
      assert c < |s.chans| ==> ChanOk(s, c);
    }
  }

  lemma KeepBeginUnlock(s: State, l: LockId)
    requires Inv(s) && Enabled(s, BeginUnlock(l))
    ensures Inv(Apply(s, BeginUnlock(l))) && !Panics(s, BeginUnlock(l))
  {
    var s' := Apply(s, BeginUnlock(l));
    assert LockOk(s, l);
    assert RegistryOk(s') && GcOk(s');
    forall m | m in s'.locks
      ensures LockOk(s', m)
    {
      assert m in s.locks ==> LockOk(s, m);
    }
    forall c | 0 <= c < |s'.chans|
      ensures ChanOk(s', c)
    {
      assert c < |s.chans| ==> ChanOk(s, c);
    }
  }

  lemma KeepSend(s: State, l: LockId)
    requires Inv(s) && Enabled(s, Send(l))
    ensures Inv(Apply(s, Send(l))) && !Panics(s, Send(l))
  {
    var s' := Apply(s, Send(l));
    assert LockOk(s, l);
    assert HeldOk(s, s.locks[l].keys[s.locks[l].pc.sent], SendsOn(s, l), l, s.locks[l].pc.sent);
    assert RegistryOk(s') && GcOk(s');
    forall m | m in s'.locks
      ensures LockOk(s', m)
    {
      assert m in s.locks ==> LockOk(s, m);
    }
    forall c | 0 <= c < |s'.chans|
      ensures ChanOk(s', c)
    {
      assert c < |s.chans| ==> ChanOk(s, c);
    }
  }

  lemma KeepEndSend(s: State, l: LockId)
    requires Inv(s) && Enabled(s, EndSend(l))
    ensures Inv(Apply(s, EndSend(l))) && !Panics(s, EndSend(l))
  {
    var s' := Apply(s, EndSend(l));
    assert LockOk(s, l);
    assert RegistryOk(s') && GcOk(s');
    forall m | m in s'.locks
      ensures LockOk(s', m)
    {
      assert m in s.locks ==> LockOk(s, m);
    }
    forall c | 0 <= c < |s'.chans|
      ensures ChanOk(s', c)
    {
      assert c < |s.chans| ==> ChanOk(s, c);
    }
  }

  lemma KeepCleanStart(s: State, owner: Option<LockId>)
    requires Inv(s) && Enabled(s, CleanStart(owner))
    ensures Inv(Apply(s, CleanStart(owner))) && !Panics(s, CleanStart(owner))
  {
    var s' := Apply(s, CleanStart(owner));
    assert RegistryOk(s') && GcOk(s');
    forall m | m in s'.locks
      ensures LockOk(s', m)
    {
      assert m in s.locks ==> LockOk(s, m);
    }
    forall c | 0 <= c < |s'.chans|
      ensures ChanOk(s', c)
    {
      assert c < |s.chans| ==> ChanOk(s, c);
    }
  }

  lemma KeepCleanVisit(s: State, k: Key)
    requires Inv(s) && Enabled(s, CleanVisit(k))
    ensures Inv(Apply(s, CleanVisit(k))) && !Panics(s, CleanVisit(k))
  {
    var s' := Apply(s, CleanVisit(k));
    assert ChanOk(s, s.registry[k]);
    assert RegistryOk(s') && GcOk(s');
    forall m | m in s'.locks
      ensures LockOk(s', m)
    {
      assert m in s.locks ==> LockOk(s, m);
    }
    forall c | 0 <= c < |s'.chans|
      ensures ChanOk(s', c)
    {
      assert c < |s.chans| ==> ChanOk(s, c);
    }
  }

  lemma KeepCleanClose(s: State)
    requires Inv(s) && Enabled(s, CleanClose)
    ensures Inv(Apply(s, CleanClose)) && !Panics(s, CleanClose)
  {
    var s' := Apply(s, CleanClose);
    assert RegistryOk(s') && GcOk(s');
    forall m | m in s'.locks
      ensures LockOk(s', m)
    {
      assert m in s.locks ==> LockOk(s, m);
    }
    forall c | 0 <= c < |s'.chans|
      ensures ChanOk(s', c)
    {
      assert c < |s.chans| ==> ChanOk(s, c);
    }
  }

  lemma CleanEndLock(s: State, m: LockId)
    requires Inv(s) && Enabled(s, CleanEnd) && m in s.locks
    ensures LockOk(Apply(s, CleanEnd), m)
  {
    var s', lk := Apply(s, CleanEnd), s.locks[m];
    assert LockOk(s, m);
    forall j | Returned(lk) <= j < |lk.chans|
      ensures HeldOk(s', lk.keys[j], lk.chans[j], m, j)
    {
      assert HeldOk(s, lk.keys[j], lk.chans[j], m, j);
    }
  }

  lemma KeepCleanEnd(s: State)
    requires Inv(s) && Enabled(s, CleanEnd)
    ensures Inv(Apply(s, CleanEnd)) && !Panics(s, CleanEnd)
  {
    var s' := Apply(s, CleanEnd);
    assert RegistryOk(s') && GcOk(s');
    forall m | m in s'.locks
      ensures LockOk(s', m)
    {
      CleanEndLock(s, m);
    }
    forall c | 0 <= c < |s'.chans|
      ensures ChanOk(s', c)
    {
      assert c < |s.chans| ==> ChanOk(s, c);
    }
  }

  /** Every step keeps the invariant, and no send or close panics. */
  lemma StepKeepsInv(s: State, a: Action)
    requires Inv(s) && Enabled(s, a)
    ensures Inv(Apply(s, a)) && !Panics(s, a)
  {
    match a
    case New(l, keys) => KeepNew(s, l, keys);
    case BeginLock(l) => KeepBeginLock(s, l);
    case GetChan(l) =>
      if Registered(s, l) {
        KeepGetKnown(s, l);
      } else {
        KeepGetNew(s, l);
      }
    case Receive(l) =>
      if s.chans[s.locks[l].pc.ch].token.InChannel? {
        KeepReceiveToken(s, l);
      } else {
        KeepReceiveClosed(s, l);
      }
    case BeginUnlock(l) => KeepBeginUnlock(s, l);
    case Send(l) => KeepSend(s, l);
    case EndSend(l) => KeepEndSend(s, l);
    case CleanStart(owner) => KeepCleanStart(s, owner);
    case CleanVisit(k) => KeepCleanVisit(s, k);
    case CleanClose => KeepCleanClose(s);
    case CleanEnd => KeepCleanEnd(s);
  }
}
