/** The gimbal over whole runs: what both axes have been doing since the last new message. */
module AxisRun {
  import opened Axis
  import AxisSweep
  import opened Numbers

  /** Both axes after the first `n` events of a run. */
  function After(blank: Message, es: seq<Event>, n: nat): (g: Gimbal)
    requires n <= |es|
    ensures Sane(g.pitch) && Sane(g.yaw)
    decreases n
  {
    if n == 0 then Gimbal(REST, REST, blank) else GimbalStep(After(blank, es, n - 1), es[n - 1])
  }

  /** How long the updates among the events from `i` to `n - 1` last. */
  function Durations(es: seq<Event>, i: nat, n: nat): (dts: seq<real>)
    requires i <= n <= |es|
    decreases n
  {
    if i == n then []
    else Durations(es, i, n - 1) + match es[n - 1] case Updates(dt) => [dt] case Receives(_) => []
  }

  /** An axis after updates that last `dts` seconds each. */
  function Run(a: AxisState, dts: seq<real>): (b: AxisState)
    requires Sane(a)
    ensures Sane(b)
    decreases |dts|
  {
    if |dts| == 0 then a else Updated(Run(a, dts[..|dts| - 1]), dts[|dts| - 1])
  }

  lemma RunStep(a: AxisState, dts: seq<real>, dt: real)
    requires Sane(a)
    ensures Run(a, dts + [dt]) == Updated(Run(a, dts), dt)
  {
    assert (dts + [dt])[..|dts|] == dts;
  }

  /** Since a message that was no repetition, repeated as it may have been, both axes have obeyed it
      once and then moved by themselves for as long as the updates lasted. */
  lemma {:induction false} OnlyNewMessagesCount(blank: Message, es: seq<Event>, i: nat, n: nat)
    requires i < n <= |es| && es[i].Receives? && es[i].msg != After(blank, es, i).last
    requires forall j | i < j < n :: es[j].Receives? ==> es[j] == es[i]
    ensures var before, now, dts := After(blank, es, i), After(blank, es, n), Durations(es, i + 1, n);
            && now.pitch == Run(Ordered(before.pitch, es[i].msg.pitch), dts)
            && now.yaw == Run(Ordered(before.yaw, es[i].msg.yaw), dts)
            && now.last == es[i].msg
    decreases n
  {
    hide Updated, Ordered, Run, GimbalStep;
    var before, msg := After(blank, es, i), es[i].msg;
    if n == i + 1 {
      NewMessage(before, msg);
    } else {
      OnlyNewMessagesCount(blank, es, i, n - 1);
      var g, dts := After(blank, es, n - 1), Durations(es, i + 1, n - 1);
      if es[n - 1].Updates? {
        TimePasses(before, msg, g, dts, es[n - 1].dt);
      } else {
        assert dts + [] == dts;
        Repetition(g, msg);
      }
    }
  }

  lemma NewMessage(g: Gimbal, msg: Message)
    requires Sane(g.pitch) && Sane(g.yaw) && msg != g.last
    ensures var h := GimbalStep(g, Receives(msg));
            && h.pitch == Run(Ordered(g.pitch, msg.pitch), [])
            && h.yaw == Run(Ordered(g.yaw, msg.yaw), []) && h.last == msg
  {
    hide Ordered;
  }

  lemma Repetition(g: Gimbal, msg: Message)
    requires Sane(g.pitch) && Sane(g.yaw) && msg == g.last
    ensures GimbalStep(g, Receives(msg)) == g
  {
  }

  lemma TimePasses(before: Gimbal, msg: Message, g: Gimbal, dts: seq<real>, dt: real)
    requires Sane(before.pitch) && Sane(before.yaw)
    requires g.pitch == Run(Ordered(before.pitch, msg.pitch), dts)
    requires g.yaw == Run(Ordered(before.yaw, msg.yaw), dts) && g.last == msg
    ensures var h := GimbalStep(g, Updates(dt));
            && h.pitch == Run(Ordered(before.pitch, msg.pitch), dts + [dt])
            && h.yaw == Run(Ordered(before.yaw, msg.yaw), dts + [dt]) && h.last == msg
  {
    hide Updated, Ordered, Run;
    RunStep(Ordered(before.pitch, msg.pitch), dts, dt);
    RunStep(Ordered(before.yaw, msg.yaw), dts, dt);
  }

  /** An angle is taken over at once and ends any motion: however long it takes, the axis stays. */
  lemma {:induction false} AngleEndsMotion(a: AxisState, o: Order, dts: seq<real>)
    requires Sane(a) && o.kind == AbsoluteAngle
    ensures Run(Ordered(a, o), dts) == a.(pos := o.angle, mode := Position)
    decreases |dts|
  {
    if |dts| > 0 {
      AngleEndsMotion(a, o, dts[..|dts| - 1]);
    }
  }

  lemma OthersAreIgnored(a: AxisState, o: Order)
    requires o.kind.OtherKind?
    ensures Ordered(a, o) == a
  {
  }

  // ------------------------------------------------------------------ moving on

  /** The range is a full turn, within a hundredth of a radian. */
  predicate FullTurn(o: Order) {
    -0.01 < o.maxRange - o.minRange - 2.0 * 3.141592653589793 < 0.01
  }

  lemma TravelAdds(v: real, t: real, dt: real)
    ensures v * (t + dt) == v * t + v * dt
  {
  }

  /** The axis turns continuously as ordered, and is `k` whole ranges short of where its velocity
      would have taken it from `pos` in `t` seconds. */
  predicate Wrapped(pos: real, o: Order, t: real, b: AxisState, k: int) {
    && b == AxisState(b.pos, Velocity, o.velocity, o.minRange, o.maxRange, true)
    && pos + o.velocity * t == b.pos + k as real * (o.maxRange - o.minRange)
  }

  predicate WithinRange(o: Order, b: AxisState) {
    o.minRange <= b.pos < o.maxRange
  }

  /** An axis that was given a velocity and a full turn: it is where the velocity would have taken
      it, up to whole ranges, inside its range after every update, and never turns round. */
  lemma {:induction false} TurnsContinuously(a: AxisState, o: Order, dts: seq<real>) returns (k: int)
    requires Sane(a) && o.kind == VelocityRange && FullTurn(o)
    ensures Wrapped(a.pos, o, Sum(dts), Run(Ordered(a, o), dts), k)
    ensures |dts| > 0 ==> WithinRange(o, Run(Ordered(a, o), dts))
    decreases |dts|
  {
    if |dts| == 0 {
      k := StartsMoving(a, o);
    } else {
      hide Updated, Ordered, Sum, Wrapped;
      var front, dt := dts[..|dts| - 1], dts[|dts| - 1];
      var j := TurnsContinuously(a, o, front);
      k := WrapsOnce(a.pos, o, Sum(front), dt, Run(Ordered(a, o), front), j);
      SumOfLast(dts);
    }
  }

  lemma StartsMoving(a: AxisState, o: Order) returns (k: int)
    requires Sane(a) && o.kind == VelocityRange && FullTurn(o)
    ensures Wrapped(a.pos, o, Sum([]), Run(Ordered(a, o), []), k)
  {
    k := 0;
    NoTime();
  }

  lemma NoTime()
    ensures Sum([]) == 0.0
  {
  }

  lemma SumOfLast(dts: seq<real>)
    requires |dts| > 0
    ensures Sum(dts) == Sum(dts[..|dts| - 1]) + dts[|dts| - 1]
  {
  }

  lemma WrapsOnce(pos: real, o: Order, t: real, dt: real, b: AxisState, j: int) returns (k: int)
    requires o.minRange < o.maxRange && Wrapped(pos, o, t, b, j)
    ensures Wrapped(pos, o, t + dt, Updated(b, dt), k) && WithinRange(o, Updated(b, dt))
  {
    hide Wrap;
    var d := Displacement(o.velocity, dt);
    var range := o.maxRange - o.minRange;
    TravelAdds(o.velocity, t, dt);
    var i := WrapIsCongruent(o.minRange, o.maxRange, b.pos, d);
    CongruencesAdd(range, pos + o.velocity * t, b.pos, d, Wrap(o.minRange, o.maxRange, b.pos, d), j, i);
    k := j + i;
  }

  /** An axis that was given a velocity and any other range: it sweeps from where it was. */
  lemma {:induction false} SweepsFromWhereItWas(a: AxisState, o: Order, dts: seq<real>)
    requires Sane(a) && o.kind == VelocityRange && !FullTurn(o)
    ensures var b := AxisSweep.After(o.minRange, o.maxRange, Sweep(a.pos, o.velocity), dts, |dts|);
            Run(Ordered(a, o), dts) == AxisState(b.pos, Velocity, b.v, o.minRange, o.maxRange, false)
    decreases |dts|
  {
    hide Bounce;
    if |dts| > 0 {
      var front := dts[..|dts| - 1];
      SweepsFromWhereItWas(a, o, front);
      SweepOfFront(o, Sweep(a.pos, o.velocity), dts, |dts| - 1);
    }
  }

  lemma {:induction false} SweepOfFront(o: Order, a: Sweep, dts: seq<real>, n: nat)
    requires n < |dts|
    ensures AxisSweep.After(o.minRange, o.maxRange, a, dts[..|dts| - 1], n)
         == AxisSweep.After(o.minRange, o.maxRange, a, dts, n)
    decreases n
  {
    hide Bounce;
    if n > 0 {
      SweepOfFront(o, a, dts, n - 1);
    }
  }
}
