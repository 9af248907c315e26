/** Stops only tighten: a run to which stops have been added shows, at every moment, the velocity
    of the run without them or zero. */
module OutletStops {
  import opened Clock
  import opened Gate
  import opened Outlet
  import opened OutletSafety
  import opened OutletHistory

  /** Gate `b` is nowhere more permissive than gate `a`. Where it has seen a larger sequence
      number, it is stopped. */
  predicate TighterGate(a: State, b: State) {
    && (b.linkUp ==> a.linkUp)
    && (a.emergencyStop ==> b.emergencyStop)
    && (a.executionStop ==> b.executionStop)
    && (b.authorized ==> a.authorized)
    && (a.hasSequence ==> b.hasSequence && a.sequence <= b.sequence)
    && (b.hasSequence && (a.hasSequence ==> a.sequence < b.sequence) ==> b.executionStop)
    && (b.hasCmd ==> a.hasCmd && b.lastCmdTime == a.lastCmdTime)
    && (b.hasNonzero ==>
          && a.hasNonzero && b.lastNonzero == a.lastNonzero
          && b.lastNonzeroTime == a.lastNonzeroTime)
  }

  predicate Tighter(a: Node, b: Node) {
    TighterGate(a.gate, b.gate) && (b.v == a.v || b.v == ZERO)
  }

  lemma OpenIsTighter(cfg: Config, a: State, b: State)
    requires TighterGate(a, b) && Open(cfg, b)
    ensures Open(cfg, a)
  {
  }

  lemma HoldIsTighter(cfg: Config, a: State, b: State, now: Time)
    requires TighterGate(a, b) && MayHold(cfg, b, now)
    ensures MayHold(cfg, a, now) && a.hasNonzero && b.hasNonzero
    ensures a.lastNonzero == b.lastNonzero && a.lastNonzeroTime == b.lastNonzeroTime
  {
  }

  /** What a command leaves alone, and what it sets whatever the gate makes of it. */
  lemma CmdVelChange(cfg: Config, g: State, v: Velocity, now: Time)
    ensures var h := AfterCmdVel(cfg, g, v, now);
            h == g.(hasCmd := true, lastCmdTime := now, hasNonzero := h.hasNonzero,
                    lastNonzero := h.lastNonzero, lastNonzeroTime := h.lastNonzeroTime)
  {
    hide InDeadZone, Open, MayHold;
  }

  lemma NonzeroStaysTighter(cfg: Config, a: State, b: State, v: Velocity, now: Time)
    requires TighterGate(a, b)
    ensures var f, g := AfterCmdVel(cfg, a, v, now), AfterCmdVel(cfg, b, v, now);
            g.hasNonzero ==> f.hasNonzero && g.lastNonzero == f.lastNonzero
                             && g.lastNonzeroTime == f.lastNonzeroTime
  {
    hide InDeadZone, Open, MayHold, TighterGate;
    if Open(cfg, b) {
      OpenIsTighter(cfg, a, b);
      if MayHold(cfg, b, now) {
        HoldIsTighter(cfg, a, b, now);
      }
    }
  }

  lemma CmdVelStaysTighter(cfg: Config, a: State, b: State, v: Velocity, now: Time)
    requires TighterGate(a, b)
    ensures TighterGate(AfterCmdVel(cfg, a, v, now), AfterCmdVel(cfg, b, v, now))
  {
    hide AfterCmdVel;
    CmdVelChange(cfg, a, v, now);
    CmdVelChange(cfg, b, v, now);
    NonzeroStaysTighter(cfg, a, b, v, now);
  }

  lemma OutputStaysTighter(cfg: Config, a: State, b: State, v: Velocity, now: Time)
    requires TighterGate(a, b)
    ensures CmdVelOutput(cfg, b, v, now).v in {CmdVelOutput(cfg, a, v, now).v, ZERO}
  {
    hide InDeadZone, Open, MayHold, TighterGate;
    if Open(cfg, b) {
      OpenIsTighter(cfg, a, b);
      if MayHold(cfg, b, now) {
        HoldIsTighter(cfg, a, b, now);
      }
    }
  }

  lemma TickStaysTighter(cfg: Config, a: State, b: State, now: Time)
    requires TighterGate(a, b) && GateSound(cfg, b)
    ensures TighterGate(AfterTick(cfg, a, now), AfterTick(cfg, b, now))
    ensures MustStop(cfg, a, now) && b.hasNonzero ==> MustStop(cfg, b, now)
  {
    hide InDeadZone, ToMs;
  }

  lemma ExecutionStaysTighter(cfg: Config, a: State, b: State, e: Event)
    requires TighterGate(a, b) && GateSound(cfg, b) && e.Execution?
    ensures TighterGate(
              AfterExecution(cfg, a, e.execute, e.sequence, e.epoch, e.generation, e.age),
              AfterExecution(cfg, b, e.execute, e.sequence, e.epoch, e.generation, e.age))
    ensures Accepts(cfg, b, e.sequence, e.age) ==> Accepts(cfg, a, e.sequence, e.age)
  {
  }

  /** The same event on both sides keeps the tighter side tighter. */
  lemma SameEvent(cfg: Config, a: Node, b: Node, e: Event)
    requires Tighter(a, b) && Sound(cfg, b)
    ensures Tighter(Step(cfg, a, e), Step(cfg, b, e))
  {
    match e
    case CmdVel(v, now) =>
      hide TighterGate, AfterCmdVel, CmdVelOutput, GateSound;
      CmdVelStaysTighter(cfg, a.gate, b.gate, v, now);
      OutputStaysTighter(cfg, a.gate, b.gate, v, now);
    case Execution(_, _, _, _, _) =>
      hide TighterGate, AfterExecution, GateSound, Accepts;
      ExecutionStaysTighter(cfg, a.gate, b.gate, e);
    case Tick(now) =>
      hide TighterGate, AfterTick, GateSound, MustStop;
      TickStaysTighter(cfg, a.gate, b.gate, now);
    case EmergencyStop(active) =>
    case LinkLocked(up) =>
    case LinkExchange(_) =>
    case SenderStarts =>
  }

  /** An event that asks for a stop, or cannot do anything but stop: an emergency stop, a STOP,
      a sample the gate rejects because it is stale or replayed, a loss of the link, a tick. */
  predicate StopsAt(cfg: Config, es: seq<Event>, i: int) {
    && 0 <= i < |es|
    && (|| es[i] == EmergencyStop(true) || es[i] == LinkLocked(false) || es[i].Tick?
        || (es[i].Execution? && (!es[i].execute || !AcceptedAt(cfg, es, i))))
  }

  lemma ExtraExecution(cfg: Config, a: State, b: State, e: Event)
    requires TighterGate(a, b) && e.Execution?
    requires !e.execute || !Accepts(cfg, b, e.sequence, e.age)
    ensures TighterGate(
              a, AfterExecution(cfg, b, e.execute, e.sequence, e.epoch, e.generation, e.age))
  {
  }

  /** A stop on one side only makes that side tighter. */
  lemma ExtraStop(cfg: Config, a: Node, es: seq<Event>, n: nat)
    requires n < |es| && StopsAt(cfg, es, n) && Tighter(a, After(cfg, es, n))
    ensures Tighter(a, Step(cfg, After(cfg, es, n), es[n]))
  {
    hide AcceptedAt;
    var b, e := After(cfg, es, n), es[n];
    if e.Execution? {
      hide TighterGate, AfterExecution, Accepts;
      AcceptsIffAccepted(cfg, es, n);
      ExtraExecution(cfg, a.gate, b.gate, e);
    }
  }

  /** Take any run and strike out any of its stops, as if they had never happened: at every
      later moment, the run with the stops shows the velocity of the run without them or zero,
      never a new velocity. */
  lemma {:induction false} StopsOnlyTighten(cfg: Config, es: seq<Event>, skip: set<nat>, n: nat)
    requires n <= |es| && forall i <- skip :: StopsAt(cfg, es, i)
    ensures Tighter(Without(cfg, es, skip, n), After(cfg, es, n))
    ensures After(cfg, es, n).v in {Without(cfg, es, skip, n).v, ZERO}
    decreases n
  {
    hide StopsAt, Tighter, Step;
    if n == 0 {
      StartIsTight();
    } else {
      StopsOnlyTighten(cfg, es, skip, n - 1);
      TighterOneLater(cfg, es, skip, n);
    }
    TighterShows(Without(cfg, es, skip, n), After(cfg, es, n));
  }

  lemma StartIsTight()
    ensures Tighter(START, START)
  {
  }

  lemma TighterShows(a: Node, b: Node)
    requires Tighter(a, b)
    ensures b.v in {a.v, ZERO}
  {
  }

  lemma TighterOneLater(cfg: Config, es: seq<Event>, skip: set<nat>, n: nat)
    requires 0 < n <= |es| && (n - 1 in skip ==> StopsAt(cfg, es, n - 1))
    requires Tighter(Without(cfg, es, skip, n - 1), After(cfg, es, n - 1))
    ensures Tighter(Without(cfg, es, skip, n), After(cfg, es, n))
  {
    hide StopsAt, Tighter, Step, Sound;
    var a, b := Without(cfg, es, skip, n - 1), After(cfg, es, n - 1);
    if n - 1 in skip {
      ExtraStop(cfg, a, es, n - 1);
    } else {
      AlwaysSound(cfg, es, n - 1);
      SameEvent(cfg, a, b, es[n - 1]);
    }
  }
}
