/** `ChainConfig.CheckCompatible` (params/config.go): may a stored chain go on under a new configuration? */
module Compat {
  import opened Wrappers
  import opened Bytes

  /** A fork block, or none scheduled. */
  type Block = Option<U64>

  datatype Config = Config(
    chainId: Option<nat>, daoForkSupport: bool,
    homestead: Block, daoFork: Block, tangerineWhistle: Block, spuriousDragon: Block, byzantium: Block,
    constantinople: Block, petersburg: Block, istanbul: Block, muirGlacier: Block, berlin: Block, london: Block,
    arrowGlacier: Block, grayGlacier: Block, mergeNetsplit: Block, shanghai: Block, cancun: Block)

  datatype CompatError = CompatError(what: string, stored: Block, wanted: Block, rewindTo: U64)

  predicate IsForked(s: Block, head: U64) {
    s.Some? && s.value <= head
  }

  predicate IsForkIncompatible(s1: Block, s2: Block, head: U64) {
    (IsForked(s1, head) || IsForked(s2, head)) && s1 != s2
  }

  function NewCompatError(what: string, stored: Block, wanted: Block): CompatError {
    var rew := if stored.None? then wanted else if wanted.None? || stored.value < wanted.value then stored else wanted;
    CompatError(what, stored, wanted, if rew.Some? && rew.value > 0 then rew.value - 1 else 0)
  }

  /**
   One test of `checkCompatible`: a rescheduled fork; a setting that differs once a fork is active; or Petersburg,
   which may be set in the past where Constantinople was.
   */
  datatype Test =
    | Rescheduled(what: string, s1: Block, s2: Block)
    | Setting(what: string, s1: Block, s2: Block, differs: bool)
    | Petersburg(what: string, s1: Block, s2: Block, constantinople: Block)

  predicate Fails(t: Test, head: U64) {
    match t
    case Rescheduled(_, s1, s2) => IsForkIncompatible(s1, s2, head)
    case Setting(_, s1, _, differs) => IsForked(s1, head) && differs
    case Petersburg(_, s1, s2, c) => IsForkIncompatible(s1, s2, head) && IsForkIncompatible(c, s2, head)
  }

  /** The tests in the order `checkCompatible` makes them. */
  function Tests(c: Config, n: Config): seq<Test> {
    [ Rescheduled("Homestead fork block", c.homestead, n.homestead),
      Rescheduled("DAO fork block", c.daoFork, n.daoFork),
      Setting("DAO fork support flag", c.daoFork, n.daoFork, c.daoForkSupport != n.daoForkSupport),
      Rescheduled("Tangerine Whistle fork block", c.tangerineWhistle, n.tangerineWhistle),
      Rescheduled("Spurious Dragon fork block", c.spuriousDragon, n.spuriousDragon),
      Setting("EIP155 chain ID", c.spuriousDragon, n.spuriousDragon, c.chainId != n.chainId),
      Rescheduled("Byzantium fork block", c.byzantium, n.byzantium),
      Rescheduled("Constantinople fork block", c.constantinople, n.constantinople),
      Petersburg("Petersburg fork block", c.petersburg, n.petersburg, c.constantinople),
      Rescheduled("Istanbul fork block", c.istanbul, n.istanbul),
      Rescheduled("Muir Glacier fork block", c.muirGlacier, n.muirGlacier),
      Rescheduled("Berlin fork block", c.berlin, n.berlin),
      Rescheduled("London fork block", c.london, n.london),
      Rescheduled("Arrow Glacier fork block", c.arrowGlacier, n.arrowGlacier),
      Rescheduled("Gray Glacier fork block", c.grayGlacier, n.grayGlacier),
      Rescheduled("Merge netsplit block", c.mergeNetsplit, n.mergeNetsplit),
      Rescheduled("Shanghai fork block", c.shanghai, n.shanghai),
      Rescheduled("Cancun fork block", c.cancun, n.cancun) ]
  }

  function FirstFailure(ts: seq<Test>, head: U64): Option<CompatError> {
    if ts == [] then None
    else if Fails(ts[0], head) then Some(NewCompatError(ts[0].what, ts[0].s1, ts[0].s2))
    else FirstFailure(ts[1..], head)
  }

  /** `checkCompatible`. */
  function CheckAt(c: Config, n: Config, head: U64): Option<CompatError> {
    FirstFailure(Tests(c, n), head)
  }

  // Compatibility in terms of the two schedules.

  /** The block is not reached at the height. */
  predicate Ahead(s: Block, head: U64) {
    s.None? || s.value > head
  }

  /** The fork is scheduled alike, or still ahead in both schedules. */
  predicate Agree(s1: Block, s2: Block, head: U64) {
    s1 == s2 || (Ahead(s1, head) && Ahead(s2, head))
  }

  /** The first `k` of the conditions on two configurations. */
  predicate AgreeUpTo(c: Config, n: Config, head: U64, k: nat) {
    && (k > 0 ==> Agree(c.homestead, n.homestead, head))
    && (k > 1 ==> Agree(c.daoFork, n.daoFork, head))
    && (k > 2 ==> Ahead(c.daoFork, head) || c.daoForkSupport == n.daoForkSupport)
    && (k > 3 ==> Agree(c.tangerineWhistle, n.tangerineWhistle, head))
    && (k > 4 ==> Agree(c.spuriousDragon, n.spuriousDragon, head))
    && (k > 5 ==> Ahead(c.spuriousDragon, head) || c.chainId == n.chainId)
    && (k > 6 ==> Agree(c.byzantium, n.byzantium, head))
    && (k > 7 ==> Agree(c.constantinople, n.constantinople, head))
    && (k > 8 ==> Agree(c.petersburg, n.petersburg, head) || Agree(c.constantinople, n.petersburg, head))
    && (k > 9 ==> Agree(c.istanbul, n.istanbul, head))
    && (k > 10 ==> Agree(c.muirGlacier, n.muirGlacier, head))
    && (k > 11 ==> Agree(c.berlin, n.berlin, head))
    && (k > 12 ==> Agree(c.london, n.london, head))
    && (k > 13 ==> Agree(c.arrowGlacier, n.arrowGlacier, head))
    && (k > 14 ==> Agree(c.grayGlacier, n.grayGlacier, head))
    && (k > 15 ==> Agree(c.mergeNetsplit, n.mergeNetsplit, head))
    && (k > 16 ==> Agree(c.shanghai, n.shanghai, head))
    && (k > 17 ==> Agree(c.cancun, n.cancun, head))
  }

  /** Nothing at or below the height would change. */
  predicate Compatible(c: Config, n: Config, head: U64) {
    AgreeUpTo(c, n, head, 18)
  }

  /** What the `k`-th condition is called, and the fork block it is about. */
  function Named(c: Config, k: nat): (string, Block) {
    match k
    case 0 => ("Homestead fork block", c.homestead)
    case 1 => ("DAO fork block", c.daoFork)
    case 2 => ("DAO fork support flag", c.daoFork)
    case 3 => ("Tangerine Whistle fork block", c.tangerineWhistle)
    case 4 => ("Spurious Dragon fork block", c.spuriousDragon)
    case 5 => ("EIP155 chain ID", c.spuriousDragon)
    case 6 => ("Byzantium fork block", c.byzantium)
    case 7 => ("Constantinople fork block", c.constantinople)
    case 8 => ("Petersburg fork block", c.petersburg)
    case 9 => ("Istanbul fork block", c.istanbul)
    case 10 => ("Muir Glacier fork block", c.muirGlacier)
    case 11 => ("Berlin fork block", c.berlin)
    case 12 => ("London fork block", c.london)
    case 13 => ("Arrow Glacier fork block", c.arrowGlacier)
    case 14 => ("Gray Glacier fork block", c.grayGlacier)
    case 15 => ("Merge netsplit block", c.mergeNetsplit)
    case 16 => ("Shanghai fork block", c.shanghai)
    case _ => ("Cancun fork block", c.cancun)
  }

  /** The highest height at which neither block is reached; zero if there is none, or if no block is set. */
  predicate LastBefore(r: U64, s1: Block, s2: Block) {
    if Ahead(s1, 0) && Ahead(s2, 0) && (s1.Some? || s2.Some?)
    then Ahead(s1, r) && Ahead(s2, r) && (s1 == Some(r + 1) || s2 == Some(r + 1))
    else r == 0
  }

  lemma RewindIs(what: string, s1: Block, s2: Block)
    ensures LastBefore(NewCompatError(what, s1, s2).rewindTo, s1, s2)
  {
  }

  /** Each test is for its own condition. */
  lemma TestIs(c: Config, n: Config, head: U64, k: nat)
    requires k < 18
    ensures |Tests(c, n)| == 18
    ensures AgreeUpTo(c, n, head, k + 1) <==> AgreeUpTo(c, n, head, k) && !Fails(Tests(c, n)[k], head)
    ensures var t := Tests(c, n)[k]; (t.what, t.s1) == Named(c, k) && (t.what, t.s2) == Named(n, k)
  {
  }

  lemma {:induction false} PassedAre(c: Config, n: Config, head: U64, k: nat)
    requires k <= 18
    ensures |Tests(c, n)| == 18
    ensures AgreeUpTo(c, n, head, k) <==> forall j | 0 <= j < k :: !Fails(Tests(c, n)[j], head)
  {
    if k > 0 {
      PassedAre(c, n, head, k - 1);
      TestIs(c, n, head, k - 1);
    }
  }

  lemma {:induction false} FirstFailureIs(ts: seq<Test>, head: U64) returns (i: nat)
    ensures i <= |ts| && forall j | 0 <= j < i :: !Fails(ts[j], head)
    ensures i < |ts| ==> Fails(ts[i], head) && FirstFailure(ts, head) == Some(NewCompatError(ts[i].what, ts[i].s1, ts[i].s2))
    ensures i == |ts| ==> FirstFailure(ts, head).None?
  {
    if ts == [] || Fails(ts[0], head) {
      i := 0;
    } else {
      var k := FirstFailureIs(ts[1..], head);
      i := k + 1;
    }
  }

  /** `checkCompatible` reports the first condition that fails: its name, both blocks, and the last height before them. */
  lemma FirstDisagreement(c: Config, n: Config, head: U64) returns (k: nat)
    ensures k <= 18 && AgreeUpTo(c, n, head, k)
    ensures k == 18 ==> CheckAt(c, n, head).None?
    ensures k < 18 ==>
              var e := CheckAt(c, n, head);
              && !AgreeUpTo(c, n, head, k + 1) && e.Some? && (e.value.what, e.value.stored) == Named(c, k)
              && (e.value.what, e.value.wanted) == Named(n, k) && LastBefore(e.value.rewindTo, e.value.stored, e.value.wanted)
  {
    k := FirstFailureIs(Tests(c, n), head);
    assert |Tests(c, n)| == 18;
    PassedAre(c, n, head, k);
    if k < 18 {
      var t := Tests(c, n)[k];
      TestIs(c, n, head, k);
      RewindIs(t.what, t.s1, t.s2);
    }
  }

  /** A setting is tested after its fork was found unmoved. */
  ghost predicate SettingsPaired(ts: seq<Test>) {
    forall i | 0 <= i < |ts| && ts[i].Setting? :: i > 0 && ts[i - 1].Rescheduled? && ts[i - 1].s1 == ts[i].s1 && ts[i - 1].s2 == ts[i].s2
  }

  lemma TestsPaired(c: Config, n: Config)
    ensures SettingsPaired(Tests(c, n))
  {
  }

  /** A failing test, where its fork did not move if it is a setting: how far its error rewinds. */
  lemma FailureRewinds(t: Test, head: U64)
    requires Fails(t, head) && (t.Setting? ==> t.s1 == t.s2)
    ensures var r := NewCompatError(t.what, t.s1, t.s2).rewindTo;
            r < head || r == 0
  {
  }

  lemma CheckRewinds(c: Config, n: Config, head: U64)
    ensures CheckAt(c, n, head).None? <==> Compatible(c, n, head)
    ensures CheckAt(c, n, head).Some? ==> CheckAt(c, n, head).value.rewindTo < head || CheckAt(c, n, head).value.rewindTo == 0
  {
    var ts := Tests(c, n);
    var i := FirstFailureIs(ts, head);
    TestsPaired(c, n);
    PassedAre(c, n, head, 18);
    if i < |ts| {
      assert ts[i].Setting? ==> !Fails(ts[i - 1], head);
      FailureRewinds(ts[i], head);
    }
  }

  /** The loop of `CheckCompatible` from a head and the last error. */
  function Lowest(c: Config, n: Config, bhead: U64, lasterr: Option<CompatError>): Option<CompatError>
    requires lasterr.Some? ==> bhead == lasterr.value.rewindTo
    decreases bhead, if lasterr.None? then 1 else 0
  {
    var err := CheckAt(c, n, bhead);
    if err.None? || (lasterr.Some? && err.value.rewindTo == lasterr.value.rewindTo) then lasterr
    else
      CheckRewinds(c, n, bhead);
      Lowest(c, n, err.value.rewindTo, err)
  }

  /**
   `CheckCompatible`: nothing if and only if the configurations are compatible at the height; else an error whose
   rewind target is a lower height at which they are, or zero.
   */
  method CheckCompatible(c: Config, newcfg: Config, height: U64) returns (lasterr: Option<CompatError>)
    ensures lasterr == Lowest(c, newcfg, height, None)
    ensures lasterr.None? <==> Compatible(c, newcfg, height)
    ensures lasterr.Some? ==> lasterr.value.rewindTo == 0 || (lasterr.value.rewindTo < height && Compatible(c, newcfg, lasterr.value.rewindTo))
    ensures lasterr.Some? ==> exists h: U64 :: lasterr.value.rewindTo <= h <= height && CheckAt(c, newcfg, h) == lasterr
    ensures lasterr.Some? && Gapless(c) ==> forall h: U64 | lasterr.value.rewindTo < h <= height :: !Compatible(c, newcfg, h)
  {
    var bhead := height;
    lasterr := None;
    CheckRewinds(c, newcfg, height);
    while true
      invariant bhead <= height
      invariant if lasterr.None? then bhead == height else bhead == lasterr.value.rewindTo && !Compatible(c, newcfg, height) && (bhead < height || bhead == 0)
      invariant lasterr.Some? ==> exists h: U64 :: bhead <= h <= height && CheckAt(c, newcfg, h) == lasterr
      invariant Lowest(c, newcfg, height, None) == Lowest(c, newcfg, bhead, lasterr)
      invariant Gapless(c) ==> forall h: U64 | bhead < h <= height :: !Compatible(c, newcfg, h)
      decreases bhead, if lasterr.None? then 1 else 0
    {
      var err := CheckAt(c, newcfg, bhead);
      CheckRewinds(c, newcfg, bhead);
      if err.None? || (lasterr.Some? && err.value.rewindTo == lasterr.value.rewindTo) {
        break;
      }
      if Gapless(c) {
        NoGap(c, newcfg, bhead);
      }
      lasterr := err;
      bhead := err.value.rewindTo;
    }
  }

  /** Petersburg not before Constantinople, or with no height in between that is above the rewind target. */
  predicate Gapless(c: Config) {
    match (c.petersburg, c.constantinople)
    case (None, _) => true
    case (Some(p), Some(q)) => q <= p || (p == 0 && q == 1)
    case (Some(p), None) => p == TWO_64 - 1
  }

  lemma FailsFrom(t: Test, head: U64, h: U64)
    requires Fails(t, head) && (t.Setting? ==> t.s1 == t.s2) && NewCompatError(t.what, t.s1, t.s2).rewindTo < h <= head
    requires t.Petersburg? ==> match (t.s1, t.constantinople)
                               case (None, _) => true
                               case (Some(p), Some(q)) => q <= p || (p == 0 && q == 1)
                               case (Some(p), None) => p == TWO_64 - 1
    ensures Fails(t, h)
  {
  }

  /** Between the rewind target and the head nothing is compatible. */
  lemma NoGap(c: Config, n: Config, head: U64)
    requires Gapless(c) && CheckAt(c, n, head).Some?
    ensures forall h: U64 | CheckAt(c, n, head).value.rewindTo < h <= head :: !Compatible(c, n, h)
  {
    var ts := Tests(c, n);
    var i := FirstFailureIs(ts, head);
    TestsPaired(c, n);
    assert ts[i].Setting? ==> !Fails(ts[i - 1], head);
    forall h: U64 | CheckAt(c, n, head).value.rewindTo < h <= head
      ensures !Compatible(c, n, h)
    {
      FailsFrom(ts[i], head, h);
      PassedAre(c, n, h, 18);
    }
  }

  /** Where only Petersburg moves, only its test can fail. */
  lemma OnlyPetersburg(c: Config, p2: Block, head: U64)
    ensures var n, t := c.(petersburg := p2), Petersburg("Petersburg fork block", c.petersburg, p2, c.constantinople);
            CheckAt(c, n, head) == (if Fails(t, head) then Some(NewCompatError(t.what, t.s1, t.s2)) else None)
            && (Compatible(c, n, head) <==> !Fails(t, head))
  {
    var n := c.(petersburg := p2);
    var ts := Tests(c, n);
    var i := FirstFailureIs(ts, head);
    assert ts[8] == Petersburg("Petersburg fork block", c.petersburg, p2, c.constantinople);
    forall j | 0 <= j < |ts| && j != 8
      ensures !Fails(ts[j], head)
    {
      assert ts[j].Rescheduled? || ts[j].Setting?;
    }
    PassedAre(c, n, head, 18);
  }

  /** The height `h` is compatible, below the height checked, and above the rewind target. */
  ghost predicate Skipped(c: Config, n: Config, height: U64, h: U64) {
    var err := Lowest(c, n, height, None);
    err.Some? && err.value.rewindTo < h <= height && Compatible(c, n, h)
  }

  /** Where Petersburg would have to move, and the heights that show it. */
  lemma GapValues(c: Config) returns (p2: Block, height: U64, h: U64)
    requires !Gapless(c)
    ensures var t := Petersburg("Petersburg fork block", c.petersburg, p2, c.constantinople);
            var r := NewCompatError(t.what, t.s1, t.s2).rewindTo;
            Fails(t, height) && !Fails(t, h) && !Fails(t, r) && r < h <= height
  {
    var p := c.petersburg.value;
    p2 := if c.constantinople.Some? then None else if p > 0 then Some(p + 1) else Some(2);
    height := if c.constantinople.Some? then c.constantinople.value else p2.value;
    h := if p > 0 then p else 1;
  }

  lemma GapSkips(c: Config) returns (n: Config, height: U64, h: U64)
    requires !Gapless(c)
    ensures Skipped(c, n, height, h)
  {
    var p2;
    p2, height, h := GapValues(c);
    var err := NewCompatError("Petersburg fork block", c.petersburg, p2);
    n := c.(petersburg := p2);
    OnlyPetersburg(c, p2, height);
    OnlyPetersburg(c, p2, h);
    OnlyPetersburg(c, p2, err.rewindTo);
    OneRewind(c, n, height, err);
  }

  lemma OneRewind(c: Config, n: Config, height: U64, err: CompatError)
    requires CheckAt(c, n, height) == Some(err) && CheckAt(c, n, err.rewindTo).None?
    ensures Lowest(c, n, height, None) == Some(err)
  {
    CheckRewinds(c, n, height);
  }

  /** The rewind target is too low for some new configuration and height exactly when the stored one is not gapless. */
  lemma RewindsTooFarIff(c: Config)
    ensures !Gapless(c) <==> exists n: Config, height: U64, h: U64 :: Skipped(c, n, height, h)
  {
    if Gapless(c) {
      forall n: Config, height: U64, h: U64 | h <= height
        ensures !Skipped(c, n, height, h)
      {
        LowestGapless(c, n, height, None, h);
      }
    } else {
      var n, height, h := GapSkips(c);
    }
  }

  lemma {:induction false} LowestGapless(c: Config, n: Config, bhead: U64, lasterr: Option<CompatError>, h: U64)
    requires Gapless(c) && (lasterr.Some? ==> bhead == lasterr.value.rewindTo) && h <= bhead
    ensures var err := Lowest(c, n, bhead, lasterr); err.Some? && err.value.rewindTo < h ==> !Compatible(c, n, h)
    decreases bhead, if lasterr.None? then 1 else 0
  {
    var err := CheckAt(c, n, bhead);
    CheckRewinds(c, n, bhead);
    if err.Some? && !(lasterr.Some? && err.value.rewindTo == lasterr.value.rewindTo) {
      NoGap(c, n, bhead);
      if h <= err.value.rewindTo {
        LowestGapless(c, n, err.value.rewindTo, err, h);
      }
    }
  }
}
