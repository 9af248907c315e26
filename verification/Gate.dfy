/** The authorization gate in front of the velocity command: which commands may pass, when a
    zero command may be bridged, and when everything must stop. */
module Gate {
  import opened Clock
  import opened Numbers

  datatype Velocity = Velocity(vx: real, vy: real, wz: real)

  const ZERO := Velocity(0.0, 0.0, 0.0)

  /** Time-outs are in milliseconds. */
  datatype Config = Config(
    requireAuthorization: bool, holdEnabled: bool, holdTimeout: int, watchdogTimeout: int,
    leaseTimeout: int, linearEpsilon: real, angularEpsilon: real)

  /** The configuration a gate is constructed with. */
  const DEFAULT := Config(false, true, 50, 300, 500, 0.001, 0.001)

  datatype Reason =
    Forward | HoldTransientZero | AuthorizedZero | NoAuthorization | WatchdogTimeout | LinkDown

  datatype Output = Output(v: Velocity, stop: bool, reason: Reason)

  datatype State = State(
    linkUp: bool, authorized: bool, emergencyStop: bool, executionStop: bool,
    hasSequence: bool, sequence: Word64, epoch: Word64, generation: Word64,
    hasCmd: bool, hasNonzero: bool, lastNonzero: Velocity, lastCmdTime: Time,
    lastNonzeroTime: Time)

  const INITIAL := State(true, false, false, false, false, 0, 0, 0, false, false, ZERO, 0, 0)

  /** A command all of whose components are within the dead zone. */
  predicate InDeadZone(cfg: Config, v: Velocity) {
    && Abs(v.vx) <= cfg.linearEpsilon && Abs(v.vy) <= cfg.linearEpsilon
    && Abs(v.wz) <= cfg.angularEpsilon
  }

  // ------------------------------------------------------------- specification

  /** Nothing forbids motion right now. */
  predicate Open(cfg: Config, s: State) {
    && s.linkUp && !s.emergencyStop && !s.executionStop
    && (cfg.requireAuthorization ==> s.authorized)
  }

  function WhyClosed(s: State): (r: Reason) {
    if !s.linkUp then LinkDown
    else if s.emergencyStop || s.executionStop then AuthorizedZero
    else NoAuthorization
  }

  function Stopped(r: Reason): (o: Output) {
    Output(ZERO, true, r)
  }

  /** A sample is fresh if its time stamp is within the lease. */
  predicate Fresh(cfg: Config, age: int) {
    age <= cfg.leaseTimeout
  }

  predicate Accepts(cfg: Config, s: State, sequence: Word64, age: int) {
    Fresh(cfg, age) && (s.hasSequence ==> s.sequence < sequence)
  }

  function AfterExecution(cfg: Config, s: State, execute: bool, sequence: Word64, epoch: Word64,
                          generation: Word64, age: int): (t: State) {
    if !Accepts(cfg, s, sequence, age) then s
    else s.(hasSequence := true, sequence := sequence, epoch := epoch, generation := generation,
            executionStop := !execute, authorized := execute && s.linkUp,
            hasNonzero := execute && s.hasNonzero)
  }

  function AfterEmergencyStop(s: State, active: bool): (t: State) {
    if active then s.(emergencyStop := true, authorized := false, hasNonzero := false)
    else s.(emergencyStop := false)
  }

  function AfterLink(s: State, up: bool): (t: State) {
    if up then s.(linkUp := true)
    else s.(linkUp := false, authorized := false, hasNonzero := false, hasCmd := false)
  }

  /** The last nonzero command may stand in for a zero command arriving now. */
  predicate MayHold(cfg: Config, s: State, now: Time) {
    && cfg.holdEnabled && s.hasNonzero && cfg.holdTimeout > 0
    && 0 <= ToMs(now - s.lastNonzeroTime) <= cfg.holdTimeout
  }

  function AfterCmdVel(cfg: Config, s: State, v: Velocity, now: Time): (t: State) {
    var passes := Open(cfg, s) && !InDeadZone(cfg, v);
    s.(hasCmd := true, lastCmdTime := now,
       hasNonzero := passes || (Open(cfg, s) && MayHold(cfg, s, now)),
       lastNonzero := if passes then v else s.lastNonzero,
       lastNonzeroTime := if passes then now else s.lastNonzeroTime)
  }

  function CmdVelOutput(cfg: Config, s: State, v: Velocity, now: Time): (o: Output) {
    if !Open(cfg, s) then Stopped(WhyClosed(s))
    else if !InDeadZone(cfg, v) then Output(v, false, Forward)
    else if MayHold(cfg, s, now) then Output(s.lastNonzero, false, HoldTransientZero)
    else Output(ZERO, false, Forward)
  }

  /** The stream of commands has dried up for longer than the watchdog allows. A watchdog
      time-out that is not positive switches the watchdog off. */
  predicate Expired(cfg: Config, s: State, now: Time) {
    s.hasCmd && cfg.watchdogTimeout > 0 && ToMs(now - s.lastCmdTime) > cfg.watchdogTimeout
  }

  predicate MustStop(cfg: Config, s: State, now: Time) {
    !Open(cfg, s) || Expired(cfg, s, now)
  }

  function AfterTick(cfg: Config, s: State, now: Time): (t: State) {
    if Open(cfg, s) && Expired(cfg, s, now) then s.(hasNonzero := false) else s
  }

  function TickOutput(cfg: Config, s: State, now: Time): (o: Output)
    requires MustStop(cfg, s, now)
  {
    Stopped(if Open(cfg, s) then WatchdogTimeout else WhyClosed(s))
  }

  // ------------------------------------------------------------- the class

  /** All methods run under one lock of the caller. */
  class CmdVelAuthorizationGate {
    var config: Config
    var linkUp: bool
    var authorized: bool
    var emergencyStop: bool
    var executionStop: bool
    var hasSequence: bool
    var sequence: Word64
    var epoch: Word64
    var generation: Word64
    var hasCmd: bool
    var hasNonzero: bool
    var lastNonzero: Velocity
    var lastCmdTime: Time
    var lastNonzeroTime: Time

    ghost function Now(): (s: State)
      reads this
    {
      State(linkUp, authorized, emergencyStop, executionStop, hasSequence, sequence, epoch,
            generation, hasCmd, hasNonzero, lastNonzero, lastCmdTime, lastNonzeroTime)
    }

    constructor (cfg: Config)
      ensures config == cfg && Now() == INITIAL
    {
      config := cfg;
      linkUp, authorized, emergencyStop, executionStop := true, false, false, false;
      hasSequence, sequence, epoch, generation := false, 0, 0, 0;
      hasCmd, hasNonzero, lastNonzero := false, false, ZERO;
      lastCmdTime, lastNonzeroTime := 0, 0;
    }

    method SetConfig(cfg: Config)
      modifies this
      ensures config == cfg && Now() == old(Now())
    {
      config := cfg;
    }

    method OnExecutionCommand(execute: bool, seqNo: Word64, locEpoch: Word64, mapGen: Word64,
                              age: int) returns (accepted: bool)
      modifies this
      ensures config == old(config)
      ensures accepted <==> Accepts(config, old(Now()), seqNo, age)
      ensures Now() == AfterExecution(config, old(Now()), execute, seqNo, locEpoch, mapGen, age)
    {
      if age > config.leaseTimeout {
        return false;
      }
      if hasSequence && seqNo <= sequence {
        return false;
      }
      hasSequence := true;
      sequence := seqNo;
      epoch := locEpoch;
      generation := mapGen;
      if execute {
        executionStop := false;
        authorized := linkUp;
      } else {
        executionStop := true;
        authorized := false;
        hasNonzero := false;
      }
      return true;
    }

    method OnEmergencyStop(active: bool)
      modifies this
      ensures config == old(config)
      ensures Now() == AfterEmergencyStop(old(Now()), active)
    {
      emergencyStop := active;
      if active {
        authorized := false;
        hasNonzero := false;
      }
    }

    method OnSerialLinkDown()
      modifies this
      ensures config == old(config)
      ensures Now() == AfterLink(old(Now()), false)
    {
      linkUp := false;
      authorized := false;
      hasNonzero := false;
      hasCmd := false;
    }

    method OnSerialLinkUp()
      modifies this
      ensures config == old(config)
      ensures Now() == AfterLink(old(Now()), true)
    {
      linkUp := true;
    }

    method OnCmdVel(v: Velocity, now: Time) returns (output: Output)
      modifies this
      ensures config == old(config)
      ensures output == CmdVelOutput(config, old(Now()), v, now)
      ensures Now() == AfterCmdVel(config, old(Now()), v, now)
    {
      hasCmd := true;
      lastCmdTime := now;
      var isZero := && Abs(v.vx) <= config.linearEpsilon && Abs(v.vy) <= config.linearEpsilon
                    && Abs(v.wz) <= config.angularEpsilon;
      if !linkUp {
        hasNonzero := false;
        return Stopped(LinkDown);
      }
      if emergencyStop || executionStop {
        hasNonzero := false;
        return Stopped(AuthorizedZero);
      }
      if config.requireAuthorization && !authorized {
        hasNonzero := false;
        return Stopped(NoAuthorization);
      }
      if !isZero {
        lastNonzero := v;
        lastNonzeroTime := now;
        hasNonzero := true;
        return Output(v, false, Forward);
      }
      if config.holdEnabled && hasNonzero && config.holdTimeout > 0 {
        var elapsed := ToMs(now - lastNonzeroTime);
        if elapsed >= 0 && elapsed <= config.holdTimeout {
          return Output(lastNonzero, false, HoldTransientZero);
        }
      }
      hasNonzero := false;
      return Output(ZERO, false, Forward);
    }

    method Tick(now: Time) returns (fires: bool, output: Output)
      modifies this
      ensures config == old(config)
      ensures fires <==> MustStop(config, old(Now()), now)
      ensures fires ==> output == TickOutput(config, old(Now()), now)
      ensures Now() == AfterTick(config, old(Now()), now)
    {
      if !linkUp {
        return true, Stopped(LinkDown);
      }
      if emergencyStop || executionStop {
        return true, Stopped(AuthorizedZero);
      }
      if config.requireAuthorization && !authorized {
        return true, Stopped(NoAuthorization);
      }
      if hasCmd && config.watchdogTimeout > 0 {
        var elapsed := ToMs(now - lastCmdTime);
        if elapsed > config.watchdogTimeout {
          hasNonzero := false;
          return true, Stopped(WatchdogTimeout);
        }
      }
      return false, Output(ZERO, true, NoAuthorization);
    }
  }
}
