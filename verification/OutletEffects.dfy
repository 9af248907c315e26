/** What a command and a tick do to the node, in inequalities and nanoseconds, and the stop flag
    and the velocity it shows as statements about the whole history. */
module OutletEffects {
  import opened Clock
  import opened Gate
  import opened History
  import opened Numbers
  import opened Outlet
  import opened OutletSafety
  import opened OutletHistory

  /** The link is up, no emergency stop and no STOP is in force, and the authorization is held
      where it is required. */
  predicate Free(cfg: Config, g: State) {
    g.linkUp && !g.emergencyStop && !g.executionStop && (g.authorized || !cfg.requireAuthorization)
  }

  /** No component is further from zero than its epsilon. */
  predicate Small(cfg: Config, v: Velocity) {
    && -cfg.linearEpsilon <= v.vx <= cfg.linearEpsilon
    && -cfg.linearEpsilon <= v.vy <= cfg.linearEpsilon
    && -cfg.angularEpsilon <= v.wz <= cfg.angularEpsilon
  }

  /** The gate remembers a command that may be held at time `now`: its age, cut off to milliseconds
      towards zero, is neither negative nor above the hold time-out. */
  predicate Held(cfg: Config, g: State, now: Time) {
    && g.hasNonzero && cfg.holdEnabled && cfg.holdTimeout > 0
    && -1_000_000 < now - g.lastNonzeroTime < (cfg.holdTimeout + 1) * 1_000_000
  }

  /** The last command, if it came since the link was last lost, is older than the watchdog allows:
      by a whole millisecond, because its age is cut off. */
  predicate Late(cfg: Config, g: State, now: Time) {
    && g.hasCmd && cfg.watchdogTimeout > 0
    && now - g.lastCmdTime >= (cfg.watchdogTimeout + 1) * 1_000_000
  }

  lemma FreeIsOpen(cfg: Config, g: State)
    ensures Free(cfg, g) <==> Open(cfg, g)
  {
  }

  lemma SmallIsDead(cfg: Config, v: Velocity)
    ensures Small(cfg, v) <==> InDeadZone(cfg, v)
  {
  }

  lemma ToMsInRange(ns: int, limit: int)
    requires limit > 0
    ensures 0 <= ToMs(ns) <= limit <==> -1_000_000 < ns < (limit + 1) * 1_000_000
  {
  }

  lemma HeldMayHold(cfg: Config, g: State, now: Time)
    ensures Held(cfg, g, now) <==> MayHold(cfg, g, now)
  {
    if cfg.holdTimeout > 0 {
      hide ToMs;
      ToMsInRange(now - g.lastNonzeroTime, cfg.holdTimeout);
    }
  }

  lemma LateIsExpired(cfg: Config, g: State, now: Time)
    ensures Late(cfg, g, now) <==> Expired(cfg, g, now)
  {
    if cfg.watchdogTimeout > 0 {
      hide ToMs;
      ToMsAtMost(now - g.lastCmdTime, cfg.watchdogTimeout);
    }
  }

  // --------------------------------------------------------------- commands and ticks

  /** At every moment of every run: a command that finds the gate closed stops the robot. One that
      finds it open switches the stop flag off; if one component or more is beyond its epsilon it is
      shown as it is, and otherwise the held command is shown, or zero if there is none. */
  lemma CommandIsObeyed(cfg: Config, es: seq<Event>, n: nat)
    requires n < |es| && es[n].CmdVel?
    ensures var g, m, e := After(cfg, es, n).gate, After(cfg, es, n + 1), es[n];
            && (m.stop <==> !Free(cfg, g))
            && m.v == if !Free(cfg, g) then ZERO
                      else if !Small(cfg, e.v) then e.v
                      else if Held(cfg, g, e.now) then g.lastNonzero
                      else ZERO
  {
    hide Free, Small, Held, Open, InDeadZone, MayHold;
    var g, e := After(cfg, es, n).gate, es[n];
    FreeIsOpen(cfg, g);
    SmallIsDead(cfg, e.v);
    HeldMayHold(cfg, g, e.now);
    assert After(cfg, es, n + 1) == Step(cfg, After(cfg, es, n), e);
  }

  /** At an open gate with nothing to hold, what is shown is the command itself or zero, and zero
      for another command exactly if every component is within its epsilon. */
  lemma ForwardedIff(cfg: Config, es: seq<Event>, n: nat)
    requires n < |es| && es[n].CmdVel? && es[n].v != ZERO
    requires Free(cfg, After(cfg, es, n).gate) && !Held(cfg, After(cfg, es, n).gate, es[n].now)
    ensures var m, v := After(cfg, es, n + 1), es[n].v;
            && !m.stop && m.v in {v, ZERO}
            && (m.v == v <==> || Abs(v.vx) > cfg.linearEpsilon || Abs(v.vy) > cfg.linearEpsilon
                              || Abs(v.wz) > cfg.angularEpsilon)
  {
    CommandIsObeyed(cfg, es, n);
  }

  /** A tick stops the robot exactly if the gate is closed or the last command is late, and
      otherwise leaves velocity and stop flag alone. */
  lemma TickStopsIff(cfg: Config, es: seq<Event>, n: nat)
    requires n < |es| && es[n].Tick?
    ensures var l, m, now := After(cfg, es, n), After(cfg, es, n + 1), es[n].now;
            if !Free(cfg, l.gate) || Late(cfg, l.gate, now) then m.v == ZERO && m.stop
            else m.v == l.v && m.stop == l.stop
  {
    hide Free, Late, Open, Expired;
    var l := After(cfg, es, n);
    FreeIsOpen(cfg, l.gate);
    LateIsExpired(cfg, l.gate, es[n].now);
    assert After(cfg, es, n + 1) == Step(cfg, l, es[n]);
  }

  // -------------------------------------------------------------------- the stop flag

  /** Event `i` is an emergency stop, a link loss, a sample that is a STOP or not accepted, a
      command at a closed gate, or a tick at a closed gate or with a late command. */
  predicate SetsStopAt(cfg: Config, es: seq<Event>, i: int) {
    && 0 <= i < |es|
    && match es[i]
       case CmdVel(_, _) => !Free(cfg, After(cfg, es, i).gate)
       case Execution(execute, _, _, _, _) => !execute || !AcceptedAt(cfg, es, i)
       case EmergencyStop(active) => active
       case LinkExchange(_) => false
       case LinkLocked(up) => !up
       case SenderStarts => false
       case Tick(now) =>
         !Free(cfg, After(cfg, es, i).gate) || Late(cfg, After(cfg, es, i).gate, now)
  }

  /** Event `i` is a command at an open gate. */
  predicate ClearsStopAt(cfg: Config, es: seq<Event>, i: int) {
    0 <= i < |es| && es[i].CmdVel? && Free(cfg, After(cfg, es, i).gate)
  }

  function SetsStop(cfg: Config, es: seq<Event>): (m: Moments) {
    i => SetsStopAt(cfg, es, i)
  }

  function ClearsStop(cfg: Config, es: seq<Event>): (m: Moments) {
    i => ClearsStopAt(cfg, es, i)
  }

  lemma OthersOnStop(cfg: Config, n: Node, e: Event)
    requires !e.CmdVel? && !e.Tick?
    ensures Step(cfg, n, e).stop
       <==> || n.stop || e == EmergencyStop(true) || e == LinkLocked(false)
            || (e.Execution? && !(e.execute && Accepts(cfg, n.gate, e.sequence, e.age)))
  {
    hide Accepts;
  }

  lemma StopStep(cfg: Config, es: seq<Event>, n: nat)
    requires 0 < n <= |es|
    ensures After(cfg, es, n).stop
       <==> || SetsStopAt(cfg, es, n - 1)
            || (!ClearsStopAt(cfg, es, n - 1) && After(cfg, es, n - 1).stop)
  {
    hide Free, Late, AcceptedAt, Accepts, Step;
    var e := es[n - 1];
    if e.CmdVel? {
      CommandIsObeyed(cfg, es, n - 1);
    } else if e.Tick? {
      TickStopsIff(cfg, es, n - 1);
    } else {
      OthersOnStop(cfg, After(cfg, es, n - 1), e);
      if e.Execution? {
        AcceptsIffAccepted(cfg, es, n - 1);
      }
    }
  }

  /** The stop flag is set exactly if something has stopped the robot and no command has found the
      gate open since. */
  lemma {:induction false} StopIsHistory(cfg: Config, es: seq<Event>, n: nat)
    requires n <= |es|
    ensures After(cfg, es, n).stop <==> Since(SetsStop(cfg, es), ClearsStop(cfg, es), n)
    decreases n
  {
    hide Since, SetsStopAt, ClearsStopAt, Step;
    if n == 0 {
      NothingSince(SetsStop(cfg, es), ClearsStop(cfg, es));
    } else {
      StopIsHistory(cfg, es, n - 1);
      StopStep(cfg, es, n);
      SinceStep(SetsStop(cfg, es), ClearsStop(cfg, es), n);
    }
  }

  // -------------------------------------------------------------- the velocity shown

  /** Event `i` is a command at an open gate that is `v` and beyond its epsilons, or that is small
      and bridged by the held command `v`. */
  predicate ShowsAt(cfg: Config, es: seq<Event>, v: Velocity, i: int) {
    && 0 <= i < |es| && es[i].CmdVel?
    && var g := After(cfg, es, i).gate;
       && Free(cfg, g)
       && if Small(cfg, es[i].v) then Held(cfg, g, es[i].now) && g.lastNonzero == v
          else es[i].v == v
  }

  /** Event `i` is any command, anything that stops the robot, or the start of the send thread. */
  predicate HidesAt(cfg: Config, es: seq<Event>, i: int) {
    SetsStopAt(cfg, es, i) || (0 <= i < |es| && (es[i].CmdVel? || es[i].SenderStarts?))
  }

  function Shows(cfg: Config, es: seq<Event>, v: Velocity): (m: Moments) {
    i => ShowsAt(cfg, es, v, i)
  }

  function Hides(cfg: Config, es: seq<Event>): (m: Moments) {
    i => HidesAt(cfg, es, i)
  }

  lemma OthersOnVelocity(cfg: Config, n: Node, e: Event)
    requires !e.CmdVel? && !e.Tick?
    ensures Step(cfg, n, e).v
         == if || e == EmergencyStop(true) || e == LinkLocked(false) || e.SenderStarts?
               || (e.Execution? && !(e.execute && Accepts(cfg, n.gate, e.sequence, e.age)))
            then ZERO else n.v
  {
    hide Accepts;
  }

  lemma VelocityStep(cfg: Config, es: seq<Event>, v: Velocity, n: nat)
    requires 0 < n <= |es| && v != ZERO
    ensures After(cfg, es, n).v == v
       <==> || ShowsAt(cfg, es, v, n - 1)
            || (!HidesAt(cfg, es, n - 1) && After(cfg, es, n - 1).v == v)
  {
    hide Free, Small, Held, Late, AcceptedAt, Accepts, Step;
    var e := es[n - 1];
    if e.CmdVel? {
      CommandIsObeyed(cfg, es, n - 1);
    } else if e.Tick? {
      TickStopsIff(cfg, es, n - 1);
    } else {
      OthersOnVelocity(cfg, After(cfg, es, n - 1), e);
      if e.Execution? {
        AcceptsIffAccepted(cfg, es, n - 1);
      }
    }
  }

  /** A velocity other than zero is cached exactly if a command has shown it and since then no
      command has come, nothing has stopped the robot and the send thread has not started. */
  lemma {:induction false} VelocityIsHistory(cfg: Config, es: seq<Event>, v: Velocity, n: nat)
    requires n <= |es| && v != ZERO
    ensures After(cfg, es, n).v == v <==> Since(Shows(cfg, es, v), Hides(cfg, es), n)
    decreases n
  {
    hide Since, ShowsAt, HidesAt, Step;
    if n == 0 {
      NothingSince(Shows(cfg, es, v), Hides(cfg, es));
    } else {
      VelocityIsHistory(cfg, es, v, n - 1);
      VelocityStep(cfg, es, v, n);
      SinceStep(Shows(cfg, es, v), Hides(cfg, es), n);
    }
  }

  // ------------------------------------------------------------- the last command

  /** Event `i` is a command that arrives at time `t`. */
  predicate CommandAt(es: seq<Event>, t: Time, i: int) {
    0 <= i < |es| && es[i].CmdVel? && es[i].now == t
  }

  function Commands(es: seq<Event>, t: Time): (m: Moments) {
    i => CommandAt(es, t, i)
  }

  /** Event `i` is a command or a link loss. */
  predicate ForgetsCommandAt(es: seq<Event>, i: int) {
    0 <= i < |es| && (es[i].CmdVel? || es[i] == LinkLocked(false))
  }

  function ForgetsCommand(es: seq<Event>): (m: Moments) {
    i => ForgetsCommandAt(es, i)
  }

  predicate HasCommand(g: State, t: Time) {
    g.hasCmd && g.lastCmdTime == t
  }

  lemma LastCommandStep(cfg: Config, n: Node, e: Event, t: Time)
    ensures HasCommand(Step(cfg, n, e).gate, t)
       <==> || (e.CmdVel? && e.now == t)
            || (!e.CmdVel? && e != LinkLocked(false) && HasCommand(n.gate, t))
  {
    hide Accepts, MustStop, Open, Expired, MayHold, InDeadZone;
    match e
    case CmdVel(v, now) => assert HasCommand(AfterCmdVel(cfg, n.gate, v, now), t) <==> now == t;
    case Execution(_, _, _, _, _) =>
    case Tick(now) =>
      assert HasCommand(AfterTick(cfg, n.gate, now), t) <==> HasCommand(n.gate, t);
    case _ =>
  }

  /** What the watchdog measures from is the arrival of the last command of any velocity, at an open
      gate or not; a link loss switches the watchdog off until the next one. */
  lemma {:induction false} LastCommandIsHistory(cfg: Config, es: seq<Event>, t: Time, n: nat)
    requires n <= |es|
    ensures HasCommand(After(cfg, es, n).gate, t)
       <==> Since(Commands(es, t), ForgetsCommand(es), n)
    decreases n
  {
    hide Since, Step;
    if n == 0 {
      NothingSince(Commands(es, t), ForgetsCommand(es));
    } else {
      LastCommandIsHistory(cfg, es, t, n - 1);
      LastCommandStep(cfg, After(cfg, es, n - 1), es[n - 1], t);
      SinceStep(Commands(es, t), ForgetsCommand(es), n);
    }
  }

  // ------------------------------------------------------------------ the reasons

  /** The reason given with an output. A link that is down is named before a stop, a stop before a
      missing authorization, and an expired watchdog only where the gate is open. */
  lemma ReasonsAreTrue(cfg: Config, g: State, v: Velocity, now: Time)
    ensures var r := CmdVelOutput(cfg, g, v, now).reason;
            && (r == LinkDown <==> !g.linkUp)
            && (r == AuthorizedZero <==> g.linkUp && (g.emergencyStop || g.executionStop))
            && (r == NoAuthorization
                <==> g.linkUp && !g.emergencyStop && !g.executionStop && !Free(cfg, g))
            && (r == HoldTransientZero <==> Free(cfg, g) && Small(cfg, v) && Held(cfg, g, now))
            && r != WatchdogTimeout
    ensures MustStop(cfg, g, now) <==> !Free(cfg, g) || Late(cfg, g, now)
    ensures MustStop(cfg, g, now) ==>
              var o := TickOutput(cfg, g, now);
              && o.v == ZERO && o.stop
              && o.reason == if Free(cfg, g) then WatchdogTimeout
                             else CmdVelOutput(cfg, g, v, now).reason
  {
    hide Small, Held, Late, InDeadZone, MayHold, Expired;
    FreeIsOpen(cfg, g);
    SmallIsDead(cfg, v);
    HeldMayHold(cfg, g, now);
    LateIsExpired(cfg, g, now);
  }
}
