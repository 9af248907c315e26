/** Where the outlet does less than its comments say, each with the exact condition. */
module OutletLimits {
  import opened Clock
  import opened Gate
  import opened History
  import opened Outlet
  import opened OutletSafety
  import opened OutletHistory
  import opened OutletAge
  import opened OutletRuns

  // ------------------------------------------------- release of an emergency stop

  /** Clearing the emergency stop opens the gate exactly if the link is up, the last accepted
      command is no STOP and, where authorization is required, an EXECUTE has been accepted
      since the last revocation, be it while the emergency stop was on. */
  lemma ReleaseOpensIff(cfg: Config, es: seq<Event>, n: nat)
    requires n < |es| && es[n] == EmergencyStop(false)
    ensures Open(cfg, After(cfg, es, n + 1).gate)
       <==> && LinkUpAt(es, n) && !Since(Stops(cfg, es), Executes(cfg, es), n)
            && (cfg.requireAuthorization ==> Since(Grants(cfg, es), Revokes(cfg, es), n))
  {
    hide Since, StoresMaximum, LinkUpAt;
    GateRefinesHistory(cfg, es, n);
    assert After(cfg, es, n + 1).gate == AfterEmergencyStop(After(cfg, es, n).gate, false);
  }

  /** An EXECUTE accepted during an emergency stop takes effect on its release: in this run motion
      resumes, up to the snapshot, with no further EXECUTE, authorization required or not. */
  lemma ReleaseAloneCanResume(cfg: Config)
    requires cfg.leaseTimeout >= 0
    ensures var es := Preamble() + [EmergencyStop(true), Execution(true, 2, 0, 0, 0),
                                    EmergencyStop(false), CmdVel(Fast(cfg), 0), Tick(0)];
            && Proper(es)
            && !After(cfg, es, 5).gate.authorized && After(cfg, es, 7).gate.authorized
            && After(cfg, es, 9).v == Fast(cfg) != ZERO && After(cfg, es, 9).usbOk
  {
    hide InDeadZone, Proper;
    var es := Preamble() + [EmergencyStop(true), Execution(true, 2, 0, 0, 0),
                            EmergencyStop(false), CmdVel(Fast(cfg), 0), Tick(0)];
    PreambleMakesProper(es);
    PreambleOpens(cfg, es);
    AcceptedOne(cfg, es);
    var a, b, c := After(cfg, es, 4), After(cfg, es, 5), After(cfg, es, 6);
    var d, e := After(cfg, es, 7), After(cfg, es, 8);
    assert b == Step(cfg, a, es[4]) && c == Step(cfg, b, es[5]) && d == Step(cfg, c, es[6]);
    assert Open(cfg, d.gate) && d.usbOk;
    assert e == Step(cfg, d, es[7]);
    ShownAtOnce(cfg, d, Fast(cfg), 0);
    assert After(cfg, es, 9) == Step(cfg, e, es[8]);
  }

  lemma AcceptedOne(cfg: Config, es: seq<Event>)
    requires Preamble() <= es && cfg.leaseTimeout >= 0
    ensures After(cfg, es, 4).gate.hasSequence && After(cfg, es, 4).gate.sequence == 1
    ensures After(cfg, es, 4).gate.linkUp
  {
    PreambleEvents(es);
    var a, b, c := After(cfg, es, 1), After(cfg, es, 2), After(cfg, es, 3);
    assert After(cfg, es, 0) == START && a == Step(cfg, START, es[0]);
    assert b == Step(cfg, a, es[1]) && c == Step(cfg, b, es[2]);
    assert After(cfg, es, 4) == Step(cfg, c, es[3]);
  }

  /** A command that finds the gate open is shown by a snapshot at the same moment. */
  lemma ShownAtOnce(cfg: Config, n: Node, v: Velocity, now: Time)
    requires Open(cfg, n.gate) && !InDeadZone(cfg, v)
    ensures var m := Step(cfg, Step(cfg, n, CmdVel(v, now)), Tick(now));
            m.v == v && m.usbOk == n.usbOk
  {
    hide InDeadZone;
  }

  // ------------------------------------------------------------ rejected samples

  lemma RejectionStep(cfg: Config, n: Node, e: Event)
    requires e.Execution? && !Accepts(cfg, n.gate, e.sequence, e.age)
    ensures var m := Step(cfg, n, e); m.v == ZERO && m.stop && m.gate == n.gate
  {
  }

  lemma OthersKeepLast(cfg: Config, n: Node, e: Event)
    requires !e.CmdVel?
    ensures var m := Step(cfg, n, e);
            && m.gate.lastNonzero == n.gate.lastNonzero
            && m.gate.lastNonzeroTime == n.gate.lastNonzeroTime && m.v in {n.v, ZERO}
  {
    match e
    case Tick(now) => assert AfterTick(cfg, n.gate, now).lastNonzero == n.gate.lastNonzero;
    case _ =>
  }

  /** Nothing halts motion from event `n` to event `k`. */
  predicate Unhalted(cfg: Config, es: seq<Event>, n: nat, k: nat) {
    forall j | n <= j < k :: !HaltsAt(cfg, es, j)
  }

  lemma UnhaltedStep(cfg: Config, es: seq<Event>, n: nat, k: nat)
    requires n < k
    ensures Unhalted(cfg, es, n, k) <==> Unhalted(cfg, es, n, k - 1) && !HaltsAt(cfg, es, k - 1)
  {
    hide HaltsAt;
  }

  lemma OneStepBetween(cfg: Config, es: seq<Event>, k: nat)
    requires 0 < k <= |es| && !es[k - 1].CmdVel?
    ensures var g, h := After(cfg, es, k - 1).gate, After(cfg, es, k).gate;
            && h.lastNonzero == g.lastNonzero && h.lastNonzeroTime == g.lastNonzeroTime
            && (h.hasNonzero <==> g.hasNonzero && !HaltsAt(cfg, es, k - 1))
  {
    hide Step, HaltsAt, ArrivesAt, EndsAt;
    var g := After(cfg, es, k - 1).gate;
    GateIsSound(cfg, es, k - 1);
    RemembersStep(cfg, es, k, g.lastNonzero, g.lastNonzeroTime);
    NoArrival(cfg, es, g.lastNonzero, g.lastNonzeroTime, k - 1);
    OthersKeepLast(cfg, After(cfg, es, k - 1), es[k - 1]);
  }

  /** Without commands, what the gate remembers changes only by being halted. */
  lemma {:induction false} BetweenCommands(cfg: Config, es: seq<Event>, n: nat, k: nat)
    requires n <= k <= |es| && forall j | n <= j < k :: !es[j].CmdVel?
    ensures var g, h := After(cfg, es, n).gate, After(cfg, es, k).gate;
            && h.lastNonzero == g.lastNonzero && h.lastNonzeroTime == g.lastNonzeroTime
            && (h.hasNonzero <==> g.hasNonzero && Unhalted(cfg, es, n, k))
    decreases k
  {
    if n < k {
      hide After, Unhalted;
      BetweenCommands(cfg, es, n, k - 1);
      OneStepBetween(cfg, es, k);
      UnhaltedStep(cfg, es, n, k);
    }
  }

  lemma NoArrival(cfg: Config, es: seq<Event>, v: Velocity, t: Time, j: nat)
    requires j < |es| && !es[j].CmdVel?
    ensures !ArrivesAt(cfg, es, v, t, j) && (EndsAt(cfg, es, t, j) <==> HaltsAt(cfg, es, j))
  {
    hide HaltsAt;
  }

  lemma {:induction false} StaysZero(cfg: Config, es: seq<Event>, n: nat, k: nat)
    requires n <= k <= |es| && After(cfg, es, n).v == ZERO
    requires forall j | n <= j < k :: !es[j].CmdVel?
    ensures After(cfg, es, k).v == ZERO
    decreases k
  {
    if n < k {
      hide Step;
      StaysZero(cfg, es, n, k - 1);
      OthersKeepLast(cfg, After(cfg, es, k - 1), es[k - 1]);
    }
  }

  lemma ZeroCommandShows(cfg: Config, n: Node, v: Velocity, now: Time)
    requires Sound(cfg, n) && InDeadZone(cfg, v)
    ensures Step(cfg, n, CmdVel(v, now)).v
         == if MayHold(cfg, n.gate, now) then n.gate.lastNonzero else ZERO
  {
    hide InDeadZone, ToMs;
  }

  /** A rejected sample, EXECUTE or STOP, zeroes the cache but is not remembered as a stop: in any
      run it stays zero until the next command, whatever ticks and other events come in between.
      If that is a zero command, it brings the velocity from before back exactly if that one may
      still be held over it and nothing has really halted motion in the meantime. */
  lemma RejectionIsForgottenIff(cfg: Config, es: seq<Event>, n: nat, m: nat)
    requires n < m < |es| && es[n].Execution? && !AcceptedAt(cfg, es, n)
    requires forall j | n < j < m :: !es[j].CmdVel?
    requires es[m].CmdVel? && InDeadZone(cfg, es[m].v) && After(cfg, es, n).v != ZERO
    ensures After(cfg, es, n + 1).stop
    ensures forall k | n < k <= m :: After(cfg, es, k).v == ZERO
    ensures After(cfg, es, m + 1).v == After(cfg, es, n).v
       <==> && MayHold(cfg, After(cfg, es, n).gate, es[m].now)
            && forall j | n <= j < m :: !HaltsAt(cfg, es, j)
    ensures After(cfg, es, m + 1).v in {After(cfg, es, n).v, ZERO}
  {
    hide Step, AcceptedAt, Accepts, InDeadZone, HaltsAt, GateSound, ToMs;
    AlwaysSound(cfg, es, n);
    AlwaysSound(cfg, es, m);
    AcceptsIffAccepted(cfg, es, n);
    RejectionStep(cfg, After(cfg, es, n), es[n]);
    forall k | n < k <= m ensures After(cfg, es, k).v == ZERO {
      StaysZero(cfg, es, n + 1, k);
    }
    BetweenCommands(cfg, es, n, m);
    ZeroCommandShows(cfg, After(cfg, es, m), es[m].v, es[m].now);
  }

  /** A run that does so: with the hold on, a replayed STOP stops the robot, and a snapshot shows it
      stopped, until the next zero command sets it in motion again, and a snapshot shows that. */
  lemma ReplayedStopIsForgotten(cfg: Config)
    requires Drivable(cfg) && CanHold(cfg)
    ensures var es := Preamble() + [CmdVel(Fast(cfg), 0), Execution(false, 1, 0, 0, 0), Tick(0),
                                    CmdVel(ZERO, 0), Tick(0)];
            && Proper(es) && !AcceptedAt(cfg, es, 5)
            && After(cfg, es, 5).v == Fast(cfg) != ZERO
            && After(cfg, es, 7).v == ZERO && After(cfg, es, 7).stop
            && After(cfg, es, 9).v == Fast(cfg) && After(cfg, es, 9).usbOk
  {
    hide InDeadZone, Proper;
    var es := Preamble() + [CmdVel(Fast(cfg), 0), Execution(false, 1, 0, 0, 0), Tick(0),
                            CmdVel(ZERO, 0), Tick(0)];
    PreambleMakesProper(es);
    PreambleOpens(cfg, es);
    NotAgain(cfg, es);
    AcceptsIffAccepted(cfg, es, 5);
    var a, b, c := After(cfg, es, 4), After(cfg, es, 5), After(cfg, es, 6);
    var d, e := After(cfg, es, 7), After(cfg, es, 8);
    assert b == Step(cfg, a, es[4]) && c == Step(cfg, b, es[5]);
    assert d == Step(cfg, c, es[6]) && e == Step(cfg, d, es[7]);
    assert After(cfg, es, 9) == Step(cfg, e, es[8]);
  }

  lemma NotAgain(cfg: Config, es: seq<Event>)
    requires Preamble() <= es && |es| > 5 && es[5] == Execution(false, 1, 0, 0, 0)
    ensures !AcceptedAt(cfg, es, 5)
  {
    PreambleEvents(es);
    assert FreshAt(cfg, es, 5) ==> FreshAt(cfg, es, 3);
  }

  // -------------------------------------------------- link flag against link state

  lemma LinkFields(cfg: Config, n: Node, e: Event)
    ensures var m := Step(cfg, n, e);
            && m.usbOk == (if e.LinkExchange? then e.up else n.usbOk)
            && m.gate.linkUp == (if e.LinkLocked? then e.up else n.gate.linkUp)
  {
    FlagsStep(cfg, n, e);
  }

  lemma {:induction false} LinkFieldsAreHistory(cfg: Config, es: seq<Event>, n: nat)
    requires n <= |es|
    ensures After(cfg, es, n).usbOk == LastExchanged(es, n)
    ensures After(cfg, es, n).gate.linkUp == LastLocked(es, n)
    decreases n
  {
    if n > 0 {
      hide Step;
      LinkFieldsAreHistory(cfg, es, n - 1);
      LinkFields(cfg, After(cfg, es, n - 1), es[n - 1]);
    }
  }

  /** The flag the threads consult and the gate's link state agree exactly if the last exchange
      and the last locked section, whichever calls they belong to, went the same way. */
  lemma LinkStatesAgreeIff(cfg: Config, es: seq<Event>, n: nat)
    requires n <= |es|
    ensures After(cfg, es, n).usbOk == After(cfg, es, n).gate.linkUp
       <==> LastExchanged(es, n) == LastLocked(es, n)
  {
    LinkFieldsAreHistory(cfg, es, n);
  }

  lemma {:induction false} OrderlyDirections(es: seq<Event>, n: nat)
    requires Orderly(es) && n <= |es|
    ensures if InExchange(es, n) then LastExchanged(es, n) == es[LastLink(es, n)].up
            else LastExchanged(es, n) == LastLocked(es, n)
    decreases n
  {
    if n > 0 {
      OrderlyDirections(es, n - 1);
    }
  }

  /** In particular they agree, whenever no call is in progress, if such calls do not overlap. */
  lemma LinkStatesAgree(cfg: Config, es: seq<Event>, n: nat)
    requires Orderly(es) && n <= |es| && !InExchange(es, n)
    ensures After(cfg, es, n).usbOk == After(cfg, es, n).gate.linkUp
  {
    OrderlyDirections(es, n);
    LinkStatesAgreeIff(cfg, es, n);
  }

  /** The link comes up. Then one thread finds the port broken and makes its exchange; another one
      sees the flag down, reopens the port and runs its whole call; and only then the first one
      gets to its locked section. */
  function OverlappingCalls(): (es: seq<Event>) {
    [LinkExchange(true), LinkLocked(true), LinkExchange(false), LinkExchange(true),
     LinkLocked(true), LinkLocked(false)]
  }

  /** If two calls overlap, the flag can end up true with the gate's link down. */
  lemma OverlapDisagrees(cfg: Config)
    ensures CallsMatch(OverlappingCalls())
    ensures After(cfg, OverlappingCalls(), 2).usbOk && !After(cfg, OverlappingCalls(), 3).usbOk
    ensures After(cfg, OverlappingCalls(), 6).usbOk
    ensures !After(cfg, OverlappingCalls(), 6).gate.linkUp
  {
    hide After;
    var es := OverlappingCalls();
    OverlappingCallsMatch();
    LinkFieldsAreHistory(cfg, es, 2);
    LinkFieldsAreHistory(cfg, es, 3);
    LinkFieldsAreHistory(cfg, es, 6);
    assert LastExchanged(es, 1) && LastExchanged(es, 4) && LastExchanged(es, 5);
  }

  lemma OverlappingCallsMatch()
    ensures CallsMatch(OverlappingCalls())
  {
    var es := OverlappingCalls();
    forall up
      ensures Count(es, LinkLocked(up), 0) == Count(es, LinkLocked(up), 1) == 0
      ensures Count(es, LinkLocked(up), 2) == Count(es, LinkLocked(up), 3) == if up then 1 else 0
      ensures Count(es, LinkLocked(up), 4) == if up then 1 else 0
      ensures Count(es, LinkLocked(up), 5) == if up then 2 else 0
      ensures Count(es, LinkLocked(up), 6) == if up then 2 else 1
    {
    }
    forall up
      ensures Count(es, LinkExchange(up), 0) == 0
      ensures Count(es, LinkExchange(up), 1) == Count(es, LinkExchange(up), 2) == if up then 1 else 0
      ensures Count(es, LinkExchange(up), 3) == 1
      ensures Count(es, LinkExchange(up), 4) == Count(es, LinkExchange(up), 5) == if up then 2 else 1
      ensures Count(es, LinkExchange(up), 6) == if up then 2 else 1
    {
    }
    forall n, up | 0 <= n <= |es|
      ensures Count(es, LinkLocked(up), n) <= Count(es, LinkExchange(up), n)
    {
      match n
      case 0 => case 1 => case 2 => case 3 => case 4 => case 5 => case _ =>
    }
  }

  /** While the gate's link is down, whatever the flag says, nothing but a locked section that
      brings the link up lets anything move. */
  lemma {:induction false} NothingMovesWithoutLink(cfg: Config, es: seq<Event>, m: nat, n: nat)
    requires m <= n <= |es| && !After(cfg, es, m).gate.linkUp
    requires forall i | m <= i < n :: es[i] != LinkLocked(true)
    ensures !After(cfg, es, n).gate.linkUp && After(cfg, es, n).v == ZERO
    decreases n
  {
    AlwaysSound(cfg, es, n);
    if m < n {
      NothingMovesWithoutLink(cfg, es, m, n - 1);
      FlagsStep(cfg, After(cfg, es, n - 1), es[n - 1]);
    }
  }
}
