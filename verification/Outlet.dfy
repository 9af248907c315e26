/** The velocity outlet of the node: the gate, the command cached for the send thread, and the
    callbacks and threads that change them, as one step per section run under the lock. */
module Outlet {
  import opened Clock
  import opened Gate

  datatype Event =
    | CmdVel(v: Velocity, now: Time)
    | Execution(execute: bool, sequence: Word64, epoch: Word64, generation: Word64, age: nat)
    | EmergencyStop(active: bool)
    /** The atomic exchange with which a change of the link state begins. */
    | LinkExchange(up: bool)
    /** The section under the lock with which it ends. */
    | LinkLocked(up: bool)
    | SenderStarts
    /** The send thread consults the gate and takes its snapshot. */
    | Tick(now: Time)

  datatype Node = Node(gate: State, v: Velocity, stop: bool, usbOk: bool)

  /** After construction: the gate starts with the link down and the command image is zero. */
  const START := Node(AfterLink(INITIAL, false), ZERO, false, false)

  function Step(cfg: Config, n: Node, e: Event): (m: Node) {
    match e
    case CmdVel(v, now) =>
      var o := CmdVelOutput(cfg, n.gate, v, now);
      n.(gate := AfterCmdVel(cfg, n.gate, v, now), v := o.v, stop := o.stop)
    case Execution(execute, sequence, epoch, generation, age) =>
      var m := n.(gate := AfterExecution(cfg, n.gate, execute, sequence, epoch, generation, age));
      if !execute || !Accepts(cfg, n.gate, sequence, age) then m.(v := ZERO, stop := true) else m
    case EmergencyStop(active) =>
      var m := n.(gate := AfterEmergencyStop(n.gate, active));
      if active then m.(v := ZERO, stop := true) else m
    case LinkExchange(up) => n.(usbOk := up)
    case LinkLocked(up) =>
      var m := n.(gate := AfterLink(n.gate, up));
      if up then m else m.(v := ZERO, stop := true)
    case SenderStarts => n.(v := ZERO)
    case Tick(now) =>
      var m := n.(gate := AfterTick(cfg, n.gate, now));
      if MustStop(cfg, n.gate, now) then m.(v := ZERO, stop := true) else m
  }

  /** The node after the first `n` events of a run. */
  function After(cfg: Config, es: seq<Event>, n: nat): (m: Node)
    requires n <= |es|
    decreases n
  {
    if n == 0 then START else Step(cfg, After(cfg, es, n - 1), es[n - 1])
  }

  /** The same run, in which the events at the positions in `skip` never happened. */
  function Without(cfg: Config, es: seq<Event>, skip: set<nat>, n: nat): (m: Node)
    requires n <= |es|
    decreases n
  {
    if n == 0 then START
    else if n - 1 in skip then Without(cfg, es, skip, n - 1)
    else Step(cfg, Without(cfg, es, skip, n - 1), es[n - 1])
  }

  /** The age of a sample in whole milliseconds. One from the future has age 0, and every age is
      taken for up to a millisecond less than it is. */
  function AgeOf(stamp: Time, wallClock: Time): (age: nat)
    ensures wallClock <= stamp ==> age == 0
    ensures wallClock >= stamp ==> age * MS <= wallClock - stamp < (age + 1) * MS
  {
    if wallClock - stamp > 0 then ToMs(wallClock - stamp) else 0
  }

  /** Which samples are fresh, in terms of the two clock readings: the lease is exceeded by up to a
      millisecond, and a sample from the future is as good as a new one. */
  lemma FreshIff(cfg: Config, stamp: Time, wallClock: Time)
    ensures Fresh(cfg, AgeOf(stamp, wallClock))
       <==> cfg.leaseTimeout >= 0 && wallClock - stamp < (cfg.leaseTimeout + 1) * MS
  {
    ToMsAtMost(wallClock - stamp, cfg.leaseTimeout);
  }

  /** The node's fields and its sections under the lock. */
  class VelocityOutlet {
    const config: Config
    const gate: CmdVelAuthorizationGate
    var v: Velocity
    var stop: bool
    var usbOk: bool

    ghost predicate Valid()
      reads this, gate
    {
      gate.config == config
    }

    ghost function Now(): (n: Node)
      reads this, gate
    {
      Node(gate.Now(), v, stop, usbOk)
    }

    constructor (cfg: Config)
      ensures Valid() && config == cfg && Now() == START
      ensures fresh(gate)
    {
      config := cfg;
      v, stop, usbOk := ZERO, false, false;
      gate := new CmdVelAuthorizationGate(DEFAULT);
      new;
      gate.SetConfig(cfg);
      gate.OnSerialLinkDown();
    }

    method Apply(output: Output)
      modifies this
      ensures v == output.v && stop == output.stop && usbOk == old(usbOk)
    {
      v := output.v;
      stop := output.stop;
    }

    method CmdVelCallback(cmd: Velocity, now: Time)
      requires Valid()
      modifies this, gate
      ensures Valid() && Now() == Step(config, old(Now()), CmdVel(cmd, now))
    {
      var output := gate.OnCmdVel(cmd, now);
      Apply(output);
    }

    /** The age of the sample is measured on the wall clock. */
    method ExecutionCommandCallback(execute: bool, sequence: Word64, epoch: Word64,
                                    generation: Word64, stamp: Time, wallClock: Time)
      requires Valid()
      modifies this, gate
      ensures Valid()
      ensures Now() == Step(config, old(Now()), Execution(execute, sequence, epoch, generation,
                                                          AgeOf(stamp, wallClock)))
    {
      var elapsed := wallClock - stamp;
      var age := ToMs(if elapsed > 0 then elapsed else 0);
      var accepted := gate.OnExecutionCommand(execute, sequence, epoch, generation, age);
      if !execute || !accepted {
        Apply(Stopped(if execute then NoAuthorization else AuthorizedZero));
      }
    }

    method EmergencyStopCallback(active: bool)
      requires Valid()
      modifies this, gate
      ensures Valid() && Now() == Step(config, old(Now()), EmergencyStop(active))
    {
      gate.OnEmergencyStop(active);
      if active {
        Apply(Stopped(AuthorizedZero));
      }
    }

    method ExchangeLinkState(up: bool) returns (wasUp: bool)
      requires Valid()
      modifies this
      ensures Valid() && wasUp == old(usbOk)
      ensures Now() == Step(config, old(Now()), LinkExchange(up))
    {
      wasUp := usbOk;
      usbOk := up;
    }

    method ApplyLinkState(up: bool)
      requires Valid()
      modifies this, gate
      ensures Valid() && Now() == Step(config, old(Now()), LinkLocked(up))
    {
      if up {
        gate.OnSerialLinkUp();
      } else {
        gate.OnSerialLinkDown();
        Apply(Stopped(LinkDown));
      }
    }

    method StartSender()
      requires Valid()
      modifies this
      ensures Valid() && Now() == Step(config, old(Now()), SenderStarts)
    {
      v := ZERO;
    }

    /** The send thread's section: consult the gate, then copy the command. */
    method Snapshot(now: Time) returns (velocity: Velocity, stopFlag: bool)
      requires Valid()
      modifies this, gate
      ensures Valid() && Now() == Step(config, old(Now()), Tick(now))
      ensures velocity == v && stopFlag == stop
    {
      var fires, output := gate.Tick(now);
      if fires {
        Apply(output);
      }
      velocity, stopFlag := v, stop;
    }
  }
}
