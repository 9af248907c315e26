/** The gate's incremental flags, read as statements about the whole history of events, and
    where a cached velocity can have come from. */
module OutletHistory {
  import opened Clock
  import opened Gate
  import opened History
  import opened Outlet
  import opened OutletSafety

  // -------------------------------------------------------- moments of a history

  predicate FreshAt(cfg: Config, es: seq<Event>, i: int) {
    0 <= i < |es| && es[i].Execution? && Fresh(cfg, es[i].age)
  }

  /** A sample counts if it is fresh and its sequence number is larger than that of every fresh
      sample before it. */
  predicate AcceptedAt(cfg: Config, es: seq<Event>, i: int) {
    FreshAt(cfg, es, i) && forall j | 0 <= j < i && FreshAt(cfg, es, j) ::
      es[j].sequence < es[i].sequence
  }

  predicate StopAt(cfg: Config, es: seq<Event>, i: int) {
    AcceptedAt(cfg, es, i) && !es[i].execute
  }

  predicate ExecuteAt(cfg: Config, es: seq<Event>, i: int) {
    AcceptedAt(cfg, es, i) && es[i].execute
  }

  predicate EventAt(es: seq<Event>, e: Event, i: int) {
    0 <= i < |es| && es[i] == e
  }

  function Moment(es: seq<Event>, e: Event): (m: Moments) {
    i => EventAt(es, e, i)
  }

  function Stops(cfg: Config, es: seq<Event>): (m: Moments) {
    i => StopAt(cfg, es, i)
  }

  function Executes(cfg: Config, es: seq<Event>): (m: Moments) {
    i => ExecuteAt(cfg, es, i)
  }

  ghost predicate LinkUpAt(es: seq<Event>, n: nat) {
    Since(Moment(es, LinkLocked(true)), Moment(es, LinkLocked(false)), n)
  }

  /** An accepted EXECUTE grants authorization, provided the link is up. */
  ghost predicate GrantsAt(cfg: Config, es: seq<Event>, i: int) {
    ExecuteAt(cfg, es, i) && LinkUpAt(es, i)
  }

  /** An accepted STOP, an emergency stop and a loss of the link revoke it. */
  predicate RevokesAt(cfg: Config, es: seq<Event>, i: int) {
    || StopAt(cfg, es, i) || EventAt(es, EmergencyStop(true), i)
    || EventAt(es, LinkLocked(false), i)
  }

  ghost function Grants(cfg: Config, es: seq<Event>): (m: Moments) {
    i => GrantsAt(cfg, es, i)
  }

  function Revokes(cfg: Config, es: seq<Event>): (m: Moments) {
    i => RevokesAt(cfg, es, i)
  }

  // ------------------------------------------------------------- the stored sequence

  /** `i` is the accepted sample whose numbers the gate has stored. */
  predicate SampleAt(cfg: Config, es: seq<Event>, g: State, i: int) {
    && AcceptedAt(cfg, es, i) && es[i].sequence == g.sequence
    && es[i].epoch == g.epoch && es[i].generation == g.generation
  }

  /** What the gate has stored is the maximum over all fresh samples so far. */
  predicate StoresMaximum(cfg: Config, es: seq<Event>, n: nat, g: State) {
    && (g.hasSequence <==> exists i | 0 <= i < n :: FreshAt(cfg, es, i))
    && (forall i | 0 <= i < n && FreshAt(cfg, es, i) :: es[i].sequence <= g.sequence)
    && (g.hasSequence ==> exists i | 0 <= i < n :: SampleAt(cfg, es, g, i))
  }

  predicate SameNumbers(g: State, h: State) {
    && h.hasSequence == g.hasSequence && h.sequence == g.sequence
    && h.epoch == g.epoch && h.generation == g.generation
  }

  lemma OthersKeepNumbers(cfg: Config, n: Node, e: Event)
    requires !e.Execution?
    ensures SameNumbers(n.gate, Step(cfg, n, e).gate)
  {
    match e
    case CmdVel(v, now) => assert SameNumbers(n.gate, AfterCmdVel(cfg, n.gate, v, now));
    case Tick(now) => assert SameNumbers(n.gate, AfterTick(cfg, n.gate, now));
    case _ =>
  }

  lemma ExecutionNumbers(cfg: Config, n: Node, e: Event)
    requires e.Execution?
    ensures var g, h := n.gate, Step(cfg, n, e).gate;
            if Accepts(cfg, g, e.sequence, e.age) then
              && h.hasSequence && h.sequence == e.sequence && h.epoch == e.epoch
              && h.generation == e.generation
            else SameNumbers(g, h)
  {
    hide Accepts;
  }

  lemma AcceptsIffLargest(cfg: Config, es: seq<Event>, n: nat, g: State)
    requires n < |es| && es[n].Execution? && StoresMaximum(cfg, es, n, g)
    ensures Accepts(cfg, g, es[n].sequence, es[n].age) <==> AcceptedAt(cfg, es, n)
  {
    if g.hasSequence {
      var i :| 0 <= i < n && SampleAt(cfg, es, g, i);
    }
  }

  lemma StoresMaximumStep(cfg: Config, es: seq<Event>, n: nat, g: State, h: State)
    requires 0 < n <= |es| && StoresMaximum(cfg, es, n - 1, g)
    requires if AcceptedAt(cfg, es, n - 1) then h.hasSequence && SampleAt(cfg, es, h, n - 1)
             else SameNumbers(g, h)
    ensures StoresMaximum(cfg, es, n, h)
  {
    if AcceptedAt(cfg, es, n - 1) {
      assert FreshAt(cfg, es, n - 1);
    } else if g.hasSequence {
      var i :| 0 <= i < n - 1 && SampleAt(cfg, es, g, i);
      assert SampleAt(cfg, es, h, i);
    }
  }

  lemma {:induction false} SequenceIsMaximum(cfg: Config, es: seq<Event>, n: nat)
    requires n <= |es|
    ensures StoresMaximum(cfg, es, n, After(cfg, es, n).gate)
    decreases n
  {
    if n > 0 {
      SequenceIsMaximum(cfg, es, n - 1);
      SequenceAdvances(cfg, es, n);
    }
  }

  lemma SequenceAdvances(cfg: Config, es: seq<Event>, n: nat)
    requires 0 < n <= |es| && StoresMaximum(cfg, es, n - 1, After(cfg, es, n - 1).gate)
    ensures StoresMaximum(cfg, es, n, After(cfg, es, n).gate)
  {
    hide Step, StoresMaximum;
    var f, g := After(cfg, es, n - 1), After(cfg, es, n);
    if es[n - 1].Execution? {
      AcceptsIffLargest(cfg, es, n - 1, f.gate);
      ExecutionNumbers(cfg, f, es[n - 1]);
    } else {
      OthersKeepNumbers(cfg, f, es[n - 1]);
    }
    StoresMaximumStep(cfg, es, n, f.gate, g.gate);
  }

  /** The gate accepts a sample exactly if it counts in the history. */
  lemma AcceptsIffAccepted(cfg: Config, es: seq<Event>, n: nat)
    requires n < |es| && es[n].Execution?
    ensures Accepts(cfg, After(cfg, es, n).gate, es[n].sequence, es[n].age)
       <==> AcceptedAt(cfg, es, n)
  {
    SequenceIsMaximum(cfg, es, n);
    AcceptsIffLargest(cfg, es, n, After(cfg, es, n).gate);
  }

  // ------------------------------------------------------------- the flags

  predicate Takes(cfg: Config, g: State, e: Event) {
    e.Execution? && Accepts(cfg, g, e.sequence, e.age)
  }

  /** What one event does to the four flags. */
  predicate FlagsChange(g: State, h: State, e: Event, taken: bool)
    requires taken ==> e.Execution?
  {
    && (h.linkUp <==> if e.LinkLocked? then e.up else g.linkUp)
    && (h.emergencyStop <==> if e.EmergencyStop? then e.active else g.emergencyStop)
    && (h.executionStop <==> if taken then !e.execute else g.executionStop)
    && (h.authorized <==>
          if taken then e.execute && g.linkUp
          else g.authorized && e != EmergencyStop(true) && e != LinkLocked(false))
  }

  lemma FlagsStep(cfg: Config, n: Node, e: Event)
    ensures FlagsChange(n.gate, Step(cfg, n, e).gate, e, Takes(cfg, n.gate, e))
  {
    match e
    case CmdVel(v, now) =>
      assert FlagsChange(n.gate, AfterCmdVel(cfg, n.gate, v, now), e, false);
    case Tick(now) => assert FlagsChange(n.gate, AfterTick(cfg, n.gate, now), e, false);
    case _ =>
  }

  /** The four flags as the history tells them. */
  ghost predicate FlagsOfHistory(cfg: Config, es: seq<Event>, n: nat, g: State) {
    && (g.linkUp <==> LinkUpAt(es, n))
    && (g.emergencyStop <==>
          Since(Moment(es, EmergencyStop(true)), Moment(es, EmergencyStop(false)), n))
    && (g.executionStop <==> Since(Stops(cfg, es), Executes(cfg, es), n))
    && (g.authorized <==> Since(Grants(cfg, es), Revokes(cfg, es), n))
  }

  lemma FlagsOfHistoryStep(cfg: Config, es: seq<Event>, n: nat, g: State, h: State)
    requires 0 < n <= |es| && FlagsOfHistory(cfg, es, n - 1, g)
    requires AcceptedAt(cfg, es, n - 1) ==> es[n - 1].Execution?
    requires FlagsChange(g, h, es[n - 1], AcceptedAt(cfg, es, n - 1))
    requires g.authorized ==> g.linkUp
    ensures FlagsOfHistory(cfg, es, n, h)
  {
    hide AcceptedAt, Since;
    SinceStep(Moment(es, LinkLocked(true)), Moment(es, LinkLocked(false)), n);
    SinceStep(Moment(es, EmergencyStop(true)), Moment(es, EmergencyStop(false)), n);
    SinceStep(Stops(cfg, es), Executes(cfg, es), n);
    SinceStep(Grants(cfg, es), Revokes(cfg, es), n);
  }

  /** The gate holds an authorization exactly if an accepted EXECUTE arrived while the link was
      up and no accepted STOP, emergency stop or loss of the link came after it; the stop flags
      are the last accepted command and the last emergency message; the stored sequence number
      is the largest fresh one. */
  lemma {:induction false} GateRefinesHistory(cfg: Config, es: seq<Event>, n: nat)
    requires n <= |es|
    ensures FlagsOfHistory(cfg, es, n, After(cfg, es, n).gate)
    ensures StoresMaximum(cfg, es, n, After(cfg, es, n).gate)
    decreases n
  {
    SequenceIsMaximum(cfg, es, n);
    if n > 0 {
      hide Step, StoresMaximum, FlagsOfHistory, FlagsChange;
      var f := After(cfg, es, n - 1);
      GateRefinesHistory(cfg, es, n - 1);
      AlwaysSound(cfg, es, n - 1);
      FlagsStep(cfg, f, es[n - 1]);
      if es[n - 1].Execution? {
        AcceptsIffAccepted(cfg, es, n - 1);
      }
      FlagsOfHistoryStep(cfg, es, n, f.gate, After(cfg, es, n).gate);
    } else {
      NothingHasHappened(cfg, es);
    }
  }

  lemma NothingHasHappened(cfg: Config, es: seq<Event>)
    ensures FlagsOfHistory(cfg, es, 0, START.gate)
  {
  }

  // --------------------------------------------- where a cached velocity came from

  /** Command `v` arrived at time `t` as event `i`, while nothing forbade motion. */
  predicate ArrivesAt(cfg: Config, es: seq<Event>, v: Velocity, t: Time, i: int) {
    && 0 <= i < |es| && es[i] == CmdVel(v, t)
    && !InDeadZone(cfg, v) && Open(cfg, After(cfg, es, i).gate)
  }

  /** A revocation, or a tick at which the gate demands a stop: closed, or watchdog expired. */
  predicate HaltsAt(cfg: Config, es: seq<Event>, j: int) {
    || RevokesAt(cfg, es, j)
    || (0 <= j < |es| && es[j].Tick? && MustStop(cfg, After(cfg, es, j).gate, es[j].now))
  }

  /** A command that may not be bridged by the one that arrived at time `t`. */
  predicate Replaces(cfg: Config, e: Event, t: Time) {
    e.CmdVel? && !(&& InDeadZone(cfg, e.v) && cfg.holdEnabled && cfg.holdTimeout > 0
                   && 0 <= ToMs(e.now - t) <= cfg.holdTimeout)
  }

  predicate EndsAt(cfg: Config, es: seq<Event>, t: Time, j: int) {
    HaltsAt(cfg, es, j) || (0 <= j < |es| && Replaces(cfg, es[j], t))
  }

  function Arrivals(cfg: Config, es: seq<Event>, v: Velocity, t: Time): (m: Moments) {
    i => ArrivesAt(cfg, es, v, t, i)
  }

  function Ends(cfg: Config, es: seq<Event>, t: Time): (m: Moments) {
    j => EndsAt(cfg, es, t, j)
  }

  predicate Remembers(g: State, v: Velocity, t: Time) {
    g.hasNonzero && g.lastNonzero == v && g.lastNonzeroTime == t
  }

  lemma RemembersAfterCmdVel(cfg: Config, g: State, e: Event, v: Velocity, t: Time)
    requires GateSound(cfg, g) && e.CmdVel?
    ensures Remembers(AfterCmdVel(cfg, g, e.v, e.now), v, t)
       <==> || (e == CmdVel(v, t) && !InDeadZone(cfg, v) && Open(cfg, g))
            || (Remembers(g, v, t) && !Replaces(cfg, e, t))
  {
    hide InDeadZone, ToMs;
  }

  lemma RemembersAfterOthers(cfg: Config, n: Node, e: Event, v: Velocity, t: Time)
    requires GateSound(cfg, n.gate) && !e.CmdVel?
    ensures Remembers(Step(cfg, n, e).gate, v, t)
       <==> && Remembers(n.gate, v, t)
            && !(Takes(cfg, n.gate, e) && !e.execute)
            && e != EmergencyStop(true) && e != LinkLocked(false)
            && !(e.Tick? && MustStop(cfg, n.gate, e.now))
  {
    match e
    case Tick(now) =>
    case _ =>
  }

  lemma AcceptedIsExecution(cfg: Config, es: seq<Event>, i: nat)
    ensures AcceptedAt(cfg, es, i) ==> i < |es| && es[i].Execution?
  {
  }

  lemma RemembersStep(cfg: Config, es: seq<Event>, n: nat, v: Velocity, t: Time)
    requires 0 < n <= |es| && GateSound(cfg, After(cfg, es, n - 1).gate)
    ensures Remembers(After(cfg, es, n).gate, v, t)
       <==> || ArrivesAt(cfg, es, v, t, n - 1)
            || (Remembers(After(cfg, es, n - 1).gate, v, t) && !EndsAt(cfg, es, t, n - 1))
  {
    hide Remembers, GateSound, AcceptedAt, Accepts, MustStop, Open, InDeadZone;
    var f, e := After(cfg, es, n - 1), es[n - 1];
    AcceptedIsExecution(cfg, es, n - 1);
    if e.CmdVel? {
      hide Replaces;
      RemembersAfterCmdVel(cfg, f.gate, e, v, t);
    } else {
      RemembersAfterOthers(cfg, f, e, v, t);
      if e.Execution? {
        AcceptsIffAccepted(cfg, es, n - 1);
      }
    }
  }

  /** The gate remembers a command exactly if it arrived at an open gate, and since then nothing
      has halted motion and every later command was a zero that the hold may bridge. */
  lemma {:induction false} MemoryIsHistory(cfg: Config, es: seq<Event>, n: nat, v: Velocity,
                                           t: Time)
    requires n <= |es|
    ensures Remembers(After(cfg, es, n).gate, v, t)
       <==> Since(Arrivals(cfg, es, v, t), Ends(cfg, es, t), n)
    decreases n
  {
    if n > 0 {
      hide Remembers, Since, ArrivesAt, EndsAt, Arrivals, Ends, Step;
      MemoryIsHistory(cfg, es, n - 1, v, t);
      GateIsSound(cfg, es, n - 1);
      RemembersStep(cfg, es, n, v, t);
      ArrivedSinceStep(cfg, es, n, v, t);
    }
  }

  lemma GateIsSound(cfg: Config, es: seq<Event>, n: nat)
    requires n <= |es|
    ensures GateSound(cfg, After(cfg, es, n).gate)
  {
    AlwaysSound(cfg, es, n);
  }

  lemma ArrivedSinceStep(cfg: Config, es: seq<Event>, n: nat, v: Velocity, t: Time)
    requires 0 < n <= |es|
    ensures Since(Arrivals(cfg, es, v, t), Ends(cfg, es, t), n)
       <==> || ArrivesAt(cfg, es, v, t, n - 1)
            || (Since(Arrivals(cfg, es, v, t), Ends(cfg, es, t), n - 1)
                && !EndsAt(cfg, es, t, n - 1))
  {
    hide Since, ArrivesAt, EndsAt;
    SinceStep(Arrivals(cfg, es, v, t), Ends(cfg, es, t), n);
  }

  /** Every nonzero velocity in the cache is one that really arrived on an open gate, with no
      halt and nothing but bridged zeros since. */
  lemma CachedVelocityArrived(cfg: Config, es: seq<Event>, n: nat)
    requires n <= |es|
    ensures var m := After(cfg, es, n);
            var t := m.gate.lastNonzeroTime;
            m.v != ZERO ==> Since(Arrivals(cfg, es, m.v, t), Ends(cfg, es, t), n)
  {
    var m := After(cfg, es, n);
    AlwaysSound(cfg, es, n);
    MemoryIsHistory(cfg, es, n, m.v, m.gate.lastNonzeroTime);
  }

  /** Events that zero the cache although the gate goes on remembering the command: a rejected
      sample, of either kind, and the start of the send thread. */
  predicate ZeroesAt(cfg: Config, es: seq<Event>, j: int) {
    && 0 <= j < |es|
    && (es[j].SenderStarts? || (es[j].Execution? && !AcceptedAt(cfg, es, j)))
  }

  lemma ShownStep(cfg: Config, n: Node, e: Event, v: Velocity, t: Time)
    requires Remembers(n.gate, v, t) && GateSound(cfg, n.gate) && n.v == v && !n.stop
    requires Remembers(Step(cfg, n, e).gate, v, t) && !e.SenderStarts?
    requires e.Execution? ==> Takes(cfg, n.gate, e) && e.execute
    requires e.CmdVel? ==> !Replaces(cfg, e, t)
    requires e.Tick? ==> !MustStop(cfg, n.gate, e.now)
    ensures Step(cfg, n, e).v == v && !Step(cfg, n, e).stop
  {
    hide InDeadZone, ToMs;
  }

  lemma StaysShown(cfg: Config, es: seq<Event>, v: Velocity, t: Time, n: nat)
    requires 0 < n <= |es| && Remembers(After(cfg, es, n - 1).gate, v, t)
    requires After(cfg, es, n - 1).v == v && !After(cfg, es, n - 1).stop
    requires !EndsAt(cfg, es, t, n - 1) && !ZeroesAt(cfg, es, n - 1)
    ensures After(cfg, es, n).v == v && !After(cfg, es, n).stop
    ensures Remembers(After(cfg, es, n).gate, v, t)
  {
    hide Remembers, GateSound, AcceptedAt, Accepts, MustStop, Replaces, Step, ArrivesAt;
    AlwaysSound(cfg, es, n - 1);
    RemembersStep(cfg, es, n, v, t);
    if es[n - 1].Execution? {
      AcceptsIffAccepted(cfg, es, n - 1);
    }
    ShownStep(cfg, After(cfg, es, n - 1), es[n - 1], v, t);
  }

  /** A command that arrives while nothing forbids motion is shown unchanged, with the stop flag
      off, until something halts motion, replaces the command or zeroes the cache. */
  lemma {:induction false} CommandIsShown(cfg: Config, es: seq<Event>, v: Velocity, t: Time,
                                          i: nat, n: nat)
    requires i < n <= |es| && ArrivesAt(cfg, es, v, t, i)
    requires forall j | i < j < n :: !EndsAt(cfg, es, t, j) && !ZeroesAt(cfg, es, j)
    ensures After(cfg, es, n).v == v && !After(cfg, es, n).stop
    ensures Remembers(After(cfg, es, n).gate, v, t)
    decreases n
  {
    if i < n - 1 {
      hide Remembers, EndsAt, ZeroesAt;
      CommandIsShown(cfg, es, v, t, i, n - 1);
      StaysShown(cfg, es, v, t, n);
    }
  }

  /** No replay across a stop: whatever is shown after a halt arrived after it. */
  lemma NoReplayAcrossHalt(cfg: Config, es: seq<Event>, n: nat, j: nat) returns (i: nat)
    requires j < n <= |es| && HaltsAt(cfg, es, j) && After(cfg, es, n).v != ZERO
    ensures j < i < n && es[i].CmdVel? && es[i].v == After(cfg, es, n).v
    ensures Open(cfg, After(cfg, es, i).gate)
  {
    hide HaltsAt, Open, InDeadZone;
    var m := After(cfg, es, n);
    var t := m.gate.lastNonzeroTime;
    CachedVelocityArrived(cfg, es, n);
    if ArrivesAt(cfg, es, m.v, t, j) {
      CommandsDoNotHalt(cfg, es, j);
    }
    i := SinceAfter(Arrivals(cfg, es, m.v, t), Ends(cfg, es, t), n, j);
    assert ArrivesAt(cfg, es, m.v, t, i);
  }

  lemma CommandsDoNotHalt(cfg: Config, es: seq<Event>, j: nat)
    requires j < |es| && es[j].CmdVel?
    ensures !HaltsAt(cfg, es, j)
  {
  }

  /** Where authorization is required, motion after a loss of the link needs an EXECUTE that
      arrives later, with the link up again and a sequence number larger than that of every
      fresh sample before it, and then a new command. */
  lemma MotionNeedsNewAuthorization(cfg: Config, es: seq<Event>, n: nat, j: nat)
    returns (k: nat, i: nat)
    requires cfg.requireAuthorization && j < n <= |es| && es[j] == LinkLocked(false)
    requires After(cfg, es, n).v != ZERO
    ensures j < k < i < n
    ensures es[k].Execution? && es[k].execute && AcceptedAt(cfg, es, k) && LinkUpAt(es, k)
    ensures es[i].CmdVel? && es[i].v == After(cfg, es, n).v
  {
    hide GrantsAt, AcceptedAt, StoresMaximum, InDeadZone;
    assert HaltsAt(cfg, es, j);
    i := NoReplayAcrossHalt(cfg, es, n, j);
    GateRefinesHistory(cfg, es, i);
    assert RevokesAt(cfg, es, j);
    NoGrantAtLinkLoss(cfg, es, j);
    k := SinceAfter(Grants(cfg, es), Revokes(cfg, es), i, j);
    UnfoldGrant(cfg, es, k);
  }

  lemma NoGrantAtLinkLoss(cfg: Config, es: seq<Event>, j: nat)
    requires j < |es| && es[j] == LinkLocked(false)
    ensures !GrantsAt(cfg, es, j)
  {
  }

  lemma UnfoldGrant(cfg: Config, es: seq<Event>, k: nat)
    requires GrantsAt(cfg, es, k)
    ensures k < |es| && es[k].Execution? && es[k].execute
    ensures AcceptedAt(cfg, es, k) && LinkUpAt(es, k)
  {
  }
}
