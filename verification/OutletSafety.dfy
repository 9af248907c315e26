/** What holds of the outlet at every instant, in every interleaving of callbacks, link changes
    and send ticks. */
module OutletSafety {
  import opened Clock
  import opened Gate
  import opened Outlet

  /** A zero command can be bridged at all. */
  predicate CanHold(cfg: Config) {
    cfg.holdEnabled && cfg.holdTimeout > 0 && InDeadZone(cfg, ZERO)
  }

  /** How long, in nanoseconds, a nonzero command can be held over later zero commands. */
  function HoldSpan(cfg: Config): (ns: int)
    ensures ns >= 0
  {
    if CanHold(cfg) then (cfg.holdTimeout + 1) * MS - 1 else 0
  }

  /** The invariant of the gate on its own. */
  predicate GateSound(cfg: Config, g: State) {
    && (g.authorized ==> g.linkUp && !g.executionStop)
    && (g.hasNonzero ==>
          && Open(cfg, g) && g.hasCmd && !InDeadZone(cfg, g.lastNonzero)
          && g.lastCmdTime - g.lastNonzeroTime <= HoldSpan(cfg))
  }

  /** The invariant of the node: a cached nonzero velocity is the gate's last nonzero command,
      and the gate still vouches for it. */
  predicate Sound(cfg: Config, n: Node) {
    && GateSound(cfg, n.gate)
    && (n.v != ZERO ==> n.gate.hasNonzero && n.v == n.gate.lastNonzero)
  }

  lemma ZeroIsDeadest(cfg: Config, v: Velocity)
    requires InDeadZone(cfg, v)
    ensures InDeadZone(cfg, ZERO)
  {
  }

  lemma CmdVelKeepsGateSound(cfg: Config, g: State, v: Velocity, now: Time)
    requires GateSound(cfg, g)
    ensures GateSound(cfg, AfterCmdVel(cfg, g, v, now))
  {
    if Open(cfg, g) && InDeadZone(cfg, v) && MayHold(cfg, g, now) {
      ToMsAtMost(now - g.lastNonzeroTime, cfg.holdTimeout);
      ZeroIsDeadest(cfg, v);
    }
  }

  lemma ExecutionKeepsGateSound(cfg: Config, g: State, e: Event)
    requires GateSound(cfg, g) && e.Execution?
    ensures GateSound(cfg, AfterExecution(cfg, g, e.execute, e.sequence, e.epoch, e.generation,
                                          e.age))
  {
  }

  lemma ChangesKeepGateSound(cfg: Config, g: State, on: bool, now: Time)
    requires GateSound(cfg, g)
    ensures GateSound(cfg, AfterEmergencyStop(g, on)) && GateSound(cfg, AfterLink(g, on))
    ensures GateSound(cfg, AfterTick(cfg, g, now))
  {
  }

  lemma CacheFollowsGate(cfg: Config, n: Node, e: Event)
    requires Sound(cfg, n)
    ensures var m := Step(cfg, n, e);
            m.v != ZERO ==> m.gate.hasNonzero && m.v == m.gate.lastNonzero
  {
  }

  lemma StepKeepsSound(cfg: Config, n: Node, e: Event)
    requires Sound(cfg, n)
    ensures Sound(cfg, Step(cfg, n, e))
  {
    hide GateSound;
    CacheFollowsGate(cfg, n, e);
    match e
    case CmdVel(v, now) => CmdVelKeepsGateSound(cfg, n.gate, v, now);
    case Execution(_, _, _, _, _) => ExecutionKeepsGateSound(cfg, n.gate, e);
    case EmergencyStop(active) => ChangesKeepGateSound(cfg, n.gate, active, 0);
    case LinkLocked(up) => ChangesKeepGateSound(cfg, n.gate, up, 0);
    case Tick(now) => ChangesKeepGateSound(cfg, n.gate, false, now);
    case _ =>
  }

  lemma {:induction false} AlwaysSound(cfg: Config, es: seq<Event>, n: nat)
    requires n <= |es|
    ensures Sound(cfg, After(cfg, es, n))
    decreases n
  {
    if n > 0 {
      AlwaysSound(cfg, es, n - 1);
      StepKeepsSound(cfg, After(cfg, es, n - 1), es[n - 1]);
    }
  }

  /** At every instant of every run, a nonzero velocity is cached only while the link is up,
      nothing demands a stop and the required authorization is held; a snapshot can show it
      only before the watchdog expires, and one that must stop shows zero with the stop flag. */
  lemma SnapshotIsSafe(cfg: Config, es: seq<Event>, n: nat)
    requires n <= |es|
    ensures var m := After(cfg, es, n);
            m.v != ZERO ==>
              && m.gate.linkUp && !m.gate.emergencyStop && !m.gate.executionStop
              && (cfg.requireAuthorization ==> m.gate.authorized)
              && m.gate.hasCmd && m.v == m.gate.lastNonzero && !InDeadZone(cfg, m.v)
    ensures n > 0 && es[n - 1].Tick? ==>
              var m := After(cfg, es, n);
              && (m.v != ZERO ==> !Expired(cfg, m.gate, es[n - 1].now))
              && (MustStop(cfg, m.gate, es[n - 1].now) ==> m.v == ZERO && m.stop)
    ensures n > 0 && es[n - 1].CmdVel? ==>
              (After(cfg, es, n).stop <==> !Open(cfg, After(cfg, es, n - 1).gate))
  {
    AlwaysSound(cfg, es, n);
  }
}
