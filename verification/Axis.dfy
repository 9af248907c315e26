/** The gimbal manager's axes: positions that are commanded outright, that wrap around, or that
    sweep back and forth between two limits. */
module Axis {
  import opened Numbers

  /** Division by a positive number, cut off towards zero. */
  function Quotient(x: real, r: real): (k: int)
    requires r > 0.0
    ensures x >= 0.0 ==> k as real * r <= x < (k as real + 1.0) * r
    ensures x < 0.0 ==> (k as real - 1.0) * r < x <= k as real * r
  {
    if x >= 0.0 then
      FloorBounds(x, r);
      (x / r).Floor
    else
      FloorBounds(-x, r);
      -(-x / r).Floor
  }

  lemma FloorBounds(x: real, r: real)
    requires r > 0.0 && x >= 0.0
    ensures var k := (x / r).Floor as real; k * r <= x < (k + 1.0) * r
  {
    var q := x / r;
    assert q * r == x;
    var k := q.Floor as real;
    Scale(k, q, r);
    ScaleStrictly(q, k + 1.0, r);
  }

  lemma Scale(a: real, b: real, r: real)
    requires a <= b && r > 0.0
    ensures a * r <= b * r
  {
  }

  lemma ScaleStrictly(a: real, b: real, r: real)
    requires a < b && r > 0.0
    ensures a * r < b * r
  {
  }

  /** `fmod` of the standard library: the remainder takes the sign of `x`. */
  function Fmod(x: real, r: real): (y: real)
    requires r > 0.0
    ensures -r < y < r && (x >= 0.0 ==> y >= 0.0) && (x < 0.0 ==> y <= 0.0)
  {
    x - Quotient(x, r) as real * r
  }

  // ------------------------------------------------------------- specification

  /** The wrapped position after a displacement. */
  function Wrap(lo: real, hi: real, pos: real, displacement: real): (p: real)
    requires lo < hi
    ensures lo <= p < hi
  {
    var range := hi - lo;
    var q := lo + Fmod(pos + displacement - lo, range);
    if q < lo then q + range else q
  }

  /** A sweeping axis: where it is and how fast it moves. */
  datatype Sweep = Sweep(pos: real, v: real)

  function Displacement(v: real, dt: real): (d: real) {
    v * dt
  }

  function Bounce(lo: real, hi: real, a: Sweep, dt: real): (b: Sweep) {
    var p := a.pos + Displacement(a.v, dt);
    if p > hi then Sweep(hi, -a.v)
    else if p < lo then Sweep(lo, -a.v)
    else Sweep(p, a.v)
  }

  // ------------------------------------------------------------- the objects

  datatype Mode = Position | Velocity

  /** What a message asks of an axis. The kinds are told apart by constants of the message. */
  datatype Kind = AbsoluteAngle | VelocityRange | OtherKind(value: bv8)

  datatype Order = Order(kind: Kind, angle: real, velocity: real, minRange: real, maxRange: real)

  datatype Message = Message(pitch: Order, yaw: Order)

  /** An axis: its position and its control. */
  datatype AxisState = AxisState(
    pos: real, mode: Mode, velocity: real, minRange: real, maxRange: real, isContinuous: bool)

  /** An angle is taken over at once and ends any motion, a velocity starts one from where the axis
      is, and the axis wraps around exactly if its range is within 0.01 of a full turn. */
  function Ordered(a: AxisState, o: Order): (b: AxisState)
    ensures Sane(a) ==> Sane(b)
  {
    match o.kind
    case AbsoluteAngle => a.(pos := o.angle, mode := Position)
    case VelocityRange =>
      AxisState(a.pos, Velocity, o.velocity, o.minRange, o.maxRange,
                Abs(o.maxRange - o.minRange - TWO_PI) < 0.01)
    case OtherKind(_) => a
  }

  /** An axis wraps around only if its range is close to a full turn. */
  predicate Sane(a: AxisState) {
    a.isContinuous ==> a.minRange < a.maxRange
  }

  /** A moving axis `dt` seconds later. */
  function Moved(a: AxisState, dt: real): (b: AxisState)
    requires Sane(a)
    ensures Sane(b)
  {
    if a.isContinuous then
      a.(pos := Wrap(a.minRange, a.maxRange, a.pos, Displacement(a.velocity, dt)))
    else
      var b := Bounce(a.minRange, a.maxRange, Sweep(a.pos, a.velocity), dt);
      a.(pos := b.pos, velocity := b.v)
  }

  /** Any axis `dt` seconds later. */
  function Updated(a: AxisState, dt: real): (b: AxisState)
    requires Sane(a)
    ensures Sane(b)
  {
    if a.mode == Position then a else Moved(a, dt)
  }

  // ------------------------------------------------------------- the gimbal

  /** Both axes, and the last message that was not a repetition. */
  datatype Gimbal = Gimbal(pitch: AxisState, yaw: AxisState, last: Message)

  datatype Event = Receives(msg: Message) | Updates(dt: real)

  const REST := AxisState(0.0, Position, 0.0, 0.0, 0.0, false)

  /** A message that repeats the last one does nothing, any other one is obeyed by both axes, and
      time passes for both. */
  function GimbalStep(g: Gimbal, e: Event): (h: Gimbal)
    requires Sane(g.pitch) && Sane(g.yaw)
    ensures Sane(h.pitch) && Sane(h.yaw)
  {
    match e
    case Receives(msg) =>
      if msg == g.last then g
      else Gimbal(Ordered(g.pitch, msg.pitch), Ordered(g.yaw, msg.yaw), msg)
    case Updates(dt) => g.(pitch := Updated(g.pitch, dt), yaw := Updated(g.yaw, dt))
  }

  class AxisControl {
    var mode: Mode
    var velocity: real
    var minRange: real
    var maxRange: real
    var isContinuous: bool

    ghost predicate Valid()
      reads this
    {
      Sane(State(0.0))
    }

    constructor ()
      ensures Valid() && mode == Position && !isContinuous
      ensures velocity == minRange == maxRange == 0.0
    {
      mode, velocity, minRange, maxRange, isContinuous := Position, 0.0, 0.0, 0.0, false;
    }

    ghost function State(pos: real): (a: AxisState)
      reads this
    {
      AxisState(pos, mode, velocity, minRange, maxRange, isContinuous)
    }

    /** The part of `gimbalCmdCallback` that handles one axis. */
    method Command(current: real, o: Order) returns (pos: real)
      requires Valid()
      modifies this
      ensures Valid() && State(pos) == Ordered(old(State(current)), o)
    {
      pos := current;
      if o.kind == AbsoluteAngle {
        pos := o.angle;
        mode := Position;
      } else if o.kind == VelocityRange {
        mode, velocity, minRange, maxRange := Velocity, o.velocity, o.minRange, o.maxRange;
        isContinuous := Abs(o.maxRange - o.minRange - TWO_PI) < 0.01;
      }
    }

    method UpdateAxisPosition(current: real, delta: real) returns (pos: real)
      requires Valid()
      modifies this
      ensures Valid() && State(pos) == Moved(old(State(current)), delta)
    {
      var displacement := velocity * delta;
      var newPos := current + displacement;
      if isContinuous {
        var range := maxRange - minRange;
        newPos := minRange + Fmod(newPos - minRange, range);
        return if newPos < minRange then newPos + range else newPos;
      }
      if newPos > maxRange {
        velocity := -velocity;
        return maxRange;
      }
      if newPos < minRange {
        velocity := -velocity;
        return minRange;
      }
      return newPos;
    }
  }

  class GimbalManager {
    var pitch: real
    var yaw: real
    const pitchCtrl: AxisControl
    const yawCtrl: AxisControl
    /** The last message that was not a repetition; at first a blank one. */
    var last: Message

    ghost predicate Valid()
      reads this, pitchCtrl, yawCtrl
    {
      pitchCtrl != yawCtrl && pitchCtrl.Valid() && yawCtrl.Valid()
    }

    ghost function Now(): (g: Gimbal)
      reads this, pitchCtrl, yawCtrl
    {
      Gimbal(pitchCtrl.State(pitch), yawCtrl.State(yaw), last)
    }

    constructor (blank: Message)
      ensures Valid() && fresh(pitchCtrl) && fresh(yawCtrl) && Now() == Gimbal(REST, REST, blank)
    {
      pitch, yaw, last := 0.0, 0.0, blank;
      pitchCtrl := new AxisControl();
      yawCtrl := new AxisControl();
    }

    /** A message that repeats the last one does nothing, so it never disturbs a sweep; any other
        one is obeyed by both axes. */
    method GimbalCmdCallback(msg: Message)
      requires Valid()
      modifies this, pitchCtrl, yawCtrl
      ensures Valid() && Now() == GimbalStep(old(Now()), Receives(msg))
    {
      if msg == last {
        return;
      }
      last := msg;
      pitch := pitchCtrl.Command(pitch, msg.pitch);
      yaw := yawCtrl.Command(yaw, msg.yaw);
    }

    /** Each axis in velocity mode moves on its own; one in position mode stays. */
    method UpdateState(delta: real)
      requires Valid()
      modifies this, pitchCtrl, yawCtrl
      ensures Valid() && Now() == GimbalStep(old(Now()), Updates(delta))
    {
      hide Moved;
      if pitchCtrl.mode == Velocity {
        pitch := pitchCtrl.UpdateAxisPosition(pitch, delta);
      }
      if yawCtrl.mode == Velocity {
        yaw := yawCtrl.UpdateAxisPosition(yaw, delta);
      }
    }
  }

  // ------------------------------------------------------------- wrapping around

  function Sum(ds: seq<real>): (s: real) {
    if |ds| == 0 then 0.0 else Sum(ds[..|ds| - 1]) + ds[|ds| - 1]
  }

  /** The position after a series of displacements, one update each. */
  function Wraps(lo: real, hi: real, pos: real, ds: seq<real>): (p: real)
    requires lo < hi
  {
    if |ds| == 0 then pos else Wrap(lo, hi, Wraps(lo, hi, pos, ds[..|ds| - 1]), ds[|ds| - 1])
  }

  /** The two positions differ by a whole number of ranges. */
  predicate CongruentBy(range: real, p: real, q: real, k: int) {
    p == q + k as real * range
  }

  lemma WrapIsCongruent(lo: real, hi: real, pos: real, d: real) returns (k: int)
    requires lo < hi
    ensures CongruentBy(hi - lo, pos + d, Wrap(lo, hi, pos, d), k)
  {
    var x, range := pos + d - lo, hi - lo;
    k := Quotient(x, range);
    if lo + Fmod(x, range) < lo {
      k := k - 1;
      Distribute(k as real, range);
    }
  }

  lemma Distribute(k: real, r: real)
    ensures (k + 1.0) * r == k * r + r
  {
  }

  lemma DistributeSum(j: int, k: int, r: real)
    ensures (j + k) as real * r == j as real * r + k as real * r
  {
    assert (j + k) as real == j as real + k as real;
  }

  lemma CongruencesAdd(range: real, x: real, p: real, d: real, q: real, j: int, i: int)
    requires CongruentBy(range, x, p, j) && CongruentBy(range, p + d, q, i)
    ensures CongruentBy(range, x + d, q, j + i)
  {
    DistributeSum(j, i, range);
  }

  lemma {:induction false} WrapsAreCongruent(lo: real, hi: real, pos: real, ds: seq<real>)
    returns (k: int)
    requires lo < hi
    ensures CongruentBy(hi - lo, pos + Sum(ds), Wraps(lo, hi, pos, ds), k)
    decreases |ds|
  {
    if |ds| == 0 {
      k := 0;
    } else {
      hide Wrap;
      var front, d := ds[..|ds| - 1], ds[|ds| - 1];
      var j := WrapsAreCongruent(lo, hi, pos, front);
      var i := WrapIsCongruent(lo, hi, Wraps(lo, hi, pos, front), d);
      var before, after := Wraps(lo, hi, pos, front), Wraps(lo, hi, pos, ds);
      CongruencesAdd(hi - lo, pos + Sum(front), before, d, after, j, i);
      k := j + i;
    }
  }

  lemma LessThanOneRange(m: int, range: real, d: real)
    requires d == m as real * range && -range < d < range
    ensures m == 0 && d == 0.0
  {
    if m <= -1 {
      Scale(m as real, -1.0, range);
    } else if m >= 1 {
      Scale(1.0, m as real, range);
    }
  }

  lemma CongruencesSubtract(range: real, x: real, p: real, q: real, j: int, k: int)
    requires CongruentBy(range, x, p, j) && CongruentBy(range, x, q, k)
    ensures q - p == (j - k) as real * range
  {
    DistributeSum(j - k, k, range);
  }

  lemma OneRepresentative(lo: real, hi: real, p: real, q: real, j: int, k: int, x: real)
    requires lo < hi && lo <= p < hi && lo <= q < hi
    requires CongruentBy(hi - lo, x, p, j) && CongruentBy(hi - lo, x, q, k)
    ensures p == q
  {
    hide CongruentBy;
    CongruencesSubtract(hi - lo, x, p, q, j, k);
    LessThanOneRange(j - k, hi - lo, q - p);
  }

  /** However many updates it takes and whatever their signs, a wrapping axis ends up inside its
      range, where a single update by the whole displacement would have put it. */
  lemma ManyWrapsAreOne(lo: real, hi: real, pos: real, ds: seq<real>)
    requires lo < hi && |ds| > 0
    ensures Wraps(lo, hi, pos, ds) == Wrap(lo, hi, pos, Sum(ds))
    ensures lo <= Wraps(lo, hi, pos, ds) < hi
  {
    hide Wrap;
    var j := WrapsAreCongruent(lo, hi, pos, ds);
    var k := WrapIsCongruent(lo, hi, pos, Sum(ds));
    var p := Wraps(lo, hi, pos, ds);
    OneRepresentative(lo, hi, p, Wrap(lo, hi, pos, Sum(ds)), j, k, pos + Sum(ds));
  }
}
