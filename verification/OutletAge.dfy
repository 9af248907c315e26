/** How old a velocity in a snapshot can be. */
module OutletAge {
  import opened Clock
  import opened Gate
  import opened Numbers
  import opened Outlet
  import opened OutletSafety
  import opened OutletHistory
  import opened OutletRuns

  // ------------------------------------------------------------- age of a snapshot

  /** The bound on the age, in nanoseconds, of a velocity in a snapshot: two truncated
      comparisons, each of which lets almost a millisecond more pass. */
  function AgeBound(cfg: Config): (ns: int) {
    HoldSpan(cfg) + (cfg.watchdogTimeout + 1) * MS - 1
  }

  /** Velocity `v` arrived as event `i`, at most `bound` nanoseconds before `now`. */
  predicate ArrivedWithin(es: seq<Event>, i: int, v: Velocity, now: Time, bound: int) {
    0 <= i < |es| && es[i].CmdVel? && es[i].v == v && now - es[i].now <= bound
  }

  /** With the watchdog on, a nonzero velocity in a snapshot arrived at most so long ago, and
      nothing has halted motion since, however many zero commands came in between. */
  lemma SnapshotIsRecent(cfg: Config, es: seq<Event>, n: nat) returns (i: nat)
    requires 0 < n <= |es| && es[n - 1].Tick? && cfg.watchdogTimeout > 0
    requires After(cfg, es, n).v != ZERO
    ensures i < n && ArrivedWithin(es, i, After(cfg, es, n).v, es[n - 1].now, AgeBound(cfg))
    ensures forall j | i < j < n :: !HaltsAt(cfg, es, j)
  {
    hide HaltsAt, InDeadZone, Replaces;
    var m := After(cfg, es, n);
    var t := m.gate.lastNonzeroTime;
    NonzeroIsRecent(cfg, es, n);
    CachedVelocityArrived(cfg, es, n);
    i :| 0 <= i < n && Arrivals(cfg, es, m.v, t)(i)
         && forall j | i < j < n :: !Ends(cfg, es, t)(j);
    assert ArrivesAt(cfg, es, m.v, t, i);
    forall j | i < j < n ensures !HaltsAt(cfg, es, j) {
      assert !Ends(cfg, es, t)(j) && !EndsAt(cfg, es, t, j);
    }
  }

  lemma NonzeroIsRecent(cfg: Config, es: seq<Event>, n: nat)
    requires 0 < n <= |es| && es[n - 1].Tick? && cfg.watchdogTimeout > 0
    requires After(cfg, es, n).v != ZERO
    ensures es[n - 1].now - After(cfg, es, n).gate.lastNonzeroTime <= AgeBound(cfg)
  {
    var m := After(cfg, es, n);
    AlwaysSound(cfg, es, n);
    SnapshotIsSafe(cfg, es, n);
    ToMsAtMost(es[n - 1].now - m.gate.lastCmdTime, cfg.watchdogTimeout);
  }

  /** A velocity outside the dead zone. */
  function Fast(cfg: Config): (v: Velocity)
    ensures !InDeadZone(cfg, v) && v != ZERO
  {
    Velocity(Abs(cfg.linearEpsilon) + 1.0, 0.0, 0.0)
  }

  lemma NeverOpens(cfg: Config, es: seq<Event>, n: nat)
    requires n <= |es| && !Drivable(cfg)
    ensures !After(cfg, es, n).gate.authorized
  {
    hide LinkUpAt, StoresMaximum;
    GateRefinesHistory(cfg, es, n);
    forall i ensures !GrantsAt(cfg, es, i) {
    }
  }

  // ------------------------------------------------- when the age is bounded at all

  ghost predicate ArrivedRecently(es: seq<Event>, v: Velocity, now: Time, bound: int) {
    exists i :: ArrivedWithin(es, i, v, now, bound)
  }

  /** Every velocity shown by a snapshot, in every run or in every proper run, arrived at most that
      long before. */
  ghost predicate AgeBoundedBy(cfg: Config, bound: int, proper: bool) {
    forall es: seq<Event> | && |es| > 0 && es[|es| - 1].Tick? && After(cfg, es, |es|).v != ZERO
                            && (proper ==> Proper(es)) ::
      ArrivedRecently(es, After(cfg, es, |es|).v, es[|es| - 1].now, bound)
  }

  /** A run that reaches the bound where zero commands can be bridged: a command, a zero command at
      the last moment at which the hold applies, and a snapshot at the last moment the watchdog
      allows. */
  function OldestHeldRun(cfg: Config): (es: seq<Event>) {
    Preamble() + [CmdVel(Fast(cfg), 0), CmdVel(ZERO, HoldSpan(cfg)), Tick(AgeBound(cfg))]
  }

  /** A command and a snapshot. */
  function EndlessRun(cfg: Config, t: Time): (es: seq<Event>) {
    Preamble() + [CmdVel(Fast(cfg), 0), Tick(t)]
  }

  lemma EndlessRunIsProper(cfg: Config, t: Time)
    requires t >= 0
    ensures Proper(EndlessRun(cfg, t))
  {
    PreambleMakesProper(EndlessRun(cfg, t));
  }

  lemma OldestHeldRunIsProper(cfg: Config)
    requires cfg.watchdogTimeout > 0
    ensures Proper(OldestHeldRun(cfg))
  {
    PreambleMakesProper(OldestHeldRun(cfg));
  }

  lemma WatchdogOff(cfg: Config, t: Time)
    requires Drivable(cfg) && cfg.watchdogTimeout <= 0
    ensures After(cfg, EndlessRun(cfg, t), 6).v == Fast(cfg)
  {
    var es := EndlessRun(cfg, t);
    PreambleOpens(cfg, es);
    var b, c := After(cfg, es, 4), After(cfg, es, 5);
    assert c == Step(cfg, b, es[4]);
    assert After(cfg, es, 6) == Step(cfg, c, es[5]);
  }

  lemma HeldBoundIsReached(cfg: Config)
    requires Drivable(cfg) && CanHold(cfg) && cfg.watchdogTimeout > 0
    ensures After(cfg, OldestHeldRun(cfg), 7).v == Fast(cfg)
  {
    var es := OldestHeldRun(cfg);
    var b, c, d := After(cfg, es, 4), After(cfg, es, 5), After(cfg, es, 6);
    PreambleOpens(cfg, es);
    assert c == Step(cfg, b, es[4]) && d == Step(cfg, c, es[5]);
    ToMsAtMost(HoldSpan(cfg), cfg.holdTimeout);
    ToMsAtMost(AgeBound(cfg) - HoldSpan(cfg), cfg.watchdogTimeout);
    assert After(cfg, es, 7) == Step(cfg, d, es[6]);
  }

  lemma UnheldBoundIsReached(cfg: Config)
    requires Drivable(cfg) && !CanHold(cfg) && cfg.watchdogTimeout > 0
    ensures After(cfg, EndlessRun(cfg, AgeBound(cfg)), 6).v == Fast(cfg)
  {
    var es := EndlessRun(cfg, AgeBound(cfg));
    PreambleOpens(cfg, es);
    var b, c := After(cfg, es, 4), After(cfg, es, 5);
    assert c == Step(cfg, b, es[4]);
    ToMsAtMost(AgeBound(cfg), cfg.watchdogTimeout);
    assert After(cfg, es, 6) == Step(cfg, c, es[5]);
  }

  /** The bound is exact: in every configuration in which anything moves and the watchdog is on, a
      proper run ends with a snapshot that shows its only nonzero command exactly that long after
      it arrived. */
  lemma AgeBoundIsReached(cfg: Config) returns (es: seq<Event>)
    requires Drivable(cfg) && cfg.watchdogTimeout > 0
    ensures Proper(es) && |es| >= 6 && es[|es| - 1] == Tick(AgeBound(cfg))
    ensures After(cfg, es, |es|).v == Fast(cfg) != ZERO && es[4] == CmdVel(Fast(cfg), 0)
    ensures forall i | 0 <= i < |es| && i != 4 && es[i].CmdVel? :: es[i].v == ZERO
  {
    hide Proper, After;
    if CanHold(cfg) {
      es := OldestHeldRun(cfg);
      HeldBoundIsReached(cfg);
      OldestHeldRunIsProper(cfg);
    } else {
      es := EndlessRun(cfg, AgeBound(cfg));
      UnheldBoundIsReached(cfg);
      EndlessRunIsProper(cfg, AgeBound(cfg));
    }
  }

  lemma BoundedIf(cfg: Config, proper: bool)
    requires cfg.watchdogTimeout > 0 || !Drivable(cfg)
    ensures AgeBoundedBy(cfg, AgeBound(cfg), proper)
  {
    forall es: seq<Event> | |es| > 0 && es[|es| - 1].Tick? && After(cfg, es, |es|).v != ZERO
      ensures ArrivedRecently(es, After(cfg, es, |es|).v, es[|es| - 1].now, AgeBound(cfg))
    {
      if Drivable(cfg) {
        var i := SnapshotIsRecent(cfg, es, |es|);
      } else {
        NeverOpens(cfg, es, |es|);
        SnapshotIsSafe(cfg, es, |es|);
      }
    }
  }

  lemma UnboundedIf(cfg: Config, bound: int, proper: bool)
    requires cfg.watchdogTimeout <= 0 && Drivable(cfg)
    ensures !AgeBoundedBy(cfg, bound, proper)
  {
    hide Proper, After;
    var t := if bound > 0 then bound + 1 else 1;
    var es := EndlessRun(cfg, t);
    WatchdogOff(cfg, t);
    EndlessRunIsProper(cfg, t);
    assert |es| == 6 && es[5] == Tick(t) && es[4].now == 0;
    assert !es[0].CmdVel? && !es[1].CmdVel? && !es[2].CmdVel? && !es[3].CmdVel? && !es[5].CmdVel?;
  }

  /** The age of what a snapshot shows is bounded exactly if the watchdog time-out is positive,
      or if the configuration lets nothing move in the first place; and this is so whether all runs
      are considered or only the proper ones. */
  lemma AgeIsBoundedIff(cfg: Config, proper: bool)
    ensures (exists bound :: AgeBoundedBy(cfg, bound, proper))
       <==> cfg.watchdogTimeout > 0 || !Drivable(cfg)
  {
    hide AgeBoundedBy;
    if cfg.watchdogTimeout > 0 || !Drivable(cfg) {
      BoundedIf(cfg, proper);
    } else {
      forall bound ensures !AgeBoundedBy(cfg, bound, proper) {
        UnboundedIf(cfg, bound, proper);
      }
    }
  }

  // ------------------------------------------------------------- start-up clamps

  /** The timing parameters as given; the lease is in seconds. */
  datatype Timing = Timing(watchdog: int, hold: int, holdEnabled: bool, lease: real)

  /** A cast of a floating-point number to an integer cuts off towards zero. */
  function Truncate(x: real): (n: int) {
    if x >= 0.0 then x.Floor else -(-x).Floor
  }

  /** `getParams`: the watchdog is tightened to the lease, and holding is switched off unless
      the hold is shorter than the watchdog. */
  method GetParams(p: Timing, requireAuthorization: bool, linearEpsilon: real,
                   angularEpsilon: real) returns (cfg: Config)
    ensures cfg == Clamped(p, requireAuthorization, linearEpsilon, angularEpsilon)
  {
    var watchdog, holdEnabled := p.watchdog, p.holdEnabled;
    if watchdog > Truncate(p.lease * 1000.0) {
      watchdog := Truncate(p.lease * 1000.0);
    }
    if p.hold >= watchdog {
      holdEnabled := false;
    }
    cfg := Config(requireAuthorization, holdEnabled, p.hold, watchdog,
                  Truncate(p.lease * 1000.0), linearEpsilon, angularEpsilon);
  }

  function Clamped(p: Timing, requireAuthorization: bool, linearEpsilon: real,
                   angularEpsilon: real): (cfg: Config)
    ensures cfg.watchdogTimeout <= cfg.leaseTimeout && cfg.watchdogTimeout <= p.watchdog
    ensures cfg.watchdogTimeout in {cfg.leaseTimeout, p.watchdog}
    ensures cfg.holdEnabled <==> p.holdEnabled && cfg.holdTimeout < cfg.watchdogTimeout
    ensures p.lease >= 0.0 ==>
              cfg.leaseTimeout as real <= p.lease * 1000.0 < cfg.leaseTimeout as real + 1.0
    ensures p.lease < 0.0 ==>
              cfg.leaseTimeout as real - 1.0 < p.lease * 1000.0 <= cfg.leaseTimeout as real
    ensures cfg.holdTimeout == p.hold && cfg.requireAuthorization == requireAuthorization
    ensures cfg.linearEpsilon == linearEpsilon && cfg.angularEpsilon == angularEpsilon
  {
    var lease := Truncate(p.lease * 1000.0);
    var watchdog := if p.watchdog > lease then lease else p.watchdog;
    Config(requireAuthorization, p.holdEnabled && p.hold < watchdog, p.hold, watchdog, lease,
           linearEpsilon, angularEpsilon)
  }

  /** The clamps keep the watchdog on exactly if its parameter is positive and the lease is at
      least one millisecond. A positive lease shorter than that switches the watchdog off. */
  lemma WatchdogStaysOnIff(p: Timing, requireAuthorization: bool, l: real, a: real)
    ensures Clamped(p, requireAuthorization, l, a).watchdogTimeout > 0
       <==> p.watchdog > 0 && p.lease >= 0.001
  {
    var ms := p.lease * 1000.0;
    assert ms >= 1.0 <==> p.lease >= 0.001;
    assert Truncate(ms) > 0 <==> ms >= 1.0;
  }

  /** Started with a positive watchdog and a lease of at least one millisecond, the node never
      shows a velocity that arrived twice the lease plus one millisecond ago or earlier. */
  lemma StartedNodeIsRecent(p: Timing, requireAuthorization: bool, l: real, a: real,
                            es: seq<Event>, n: nat) returns (i: nat)
    requires p.watchdog > 0 && p.lease >= 0.001
    requires 0 < n <= |es| && es[n - 1].Tick?
    requires After(Clamped(p, requireAuthorization, l, a), es, n).v != ZERO
    ensures var cfg := Clamped(p, requireAuthorization, l, a);
            && i < n && ArrivedWithin(es, i, After(cfg, es, n).v, es[n - 1].now,
                                      (2 * cfg.leaseTimeout + 1) * MS - 1)
  {
    var cfg := Clamped(p, requireAuthorization, l, a);
    WatchdogStaysOnIff(p, requireAuthorization, l, a);
    i := SnapshotIsRecent(cfg, es, n);
    assert cfg.holdEnabled ==> cfg.holdTimeout + 1 <= cfg.watchdogTimeout;
    assert AgeBound(cfg) <= (2 * cfg.leaseTimeout + 1) * MS - 1;
  }
}
