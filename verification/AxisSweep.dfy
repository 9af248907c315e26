/** How a sweeping axis behaves over any number of updates: it stays within its limits, keeps its
    speed, and turns at one limit after the other within a bounded number of updates. */
module AxisSweep {
  import opened Axis
  import opened Numbers

  /** The axis after the first `n` updates, which last `dts` seconds each. */
  function After(lo: real, hi: real, a: Sweep, dts: seq<real>, n: nat): (b: Sweep)
    requires n <= |dts|
    decreases n
  {
    if n == 0 then a else Bounce(lo, hi, After(lo, hi, a, dts, n - 1), dts[n - 1])
  }

  /** Update `n` turned the axis round. */
  predicate Turns(lo: real, hi: real, a: Sweep, dts: seq<real>, n: nat)
    requires n < |dts|
  {
    var p := After(lo, hi, a, dts, n);
    var q := p.pos + Displacement(p.v, dts[n]);
    q > hi || q < lo
  }

  function TurnCount(lo: real, hi: real, a: Sweep, dts: seq<real>, n: nat): (c: nat)
    requires n <= |dts|
    decreases n
  {
    if n == 0 then 0
    else TurnCount(lo, hi, a, dts, n - 1) + if Turns(lo, hi, a, dts, n - 1) then 1 else 0
  }

  /** Wherever it starts, the axis is within its limits after every update and keeps its speed,
      reversed as many times as it has turned. */
  lemma {:induction false} StaysWithinLimits(lo: real, hi: real, a: Sweep, dts: seq<real>, n: nat)
    requires lo <= hi && n <= |dts|
    ensures var b := After(lo, hi, a, dts, n);
            && (n > 0 ==> lo <= b.pos <= hi)
            && b.v == if TurnCount(lo, hi, a, dts, n) % 2 == 0 then a.v else -a.v
    decreases n
  {
    if n > 0 {
      StaysWithinLimits(lo, hi, a, dts, n - 1);
    }
  }

  /** An update turns the axis round exactly if its speed would carry it past a limit in that time,
      and leaves it at that limit. */
  lemma TurnsIff(lo: real, hi: real, a: Sweep, dts: seq<real>, n: nat)
    requires lo <= hi && n < |dts|
    ensures var p, q := After(lo, hi, a, dts, n), After(lo, hi, a, dts, n + 1);
            && (Turns(lo, hi, a, dts, n) <==> !(lo <= p.pos + p.v * dts[n] <= hi))
            && q == if p.pos + p.v * dts[n] > hi then Sweep(hi, -p.v)
                    else if p.pos + p.v * dts[n] < lo then Sweep(lo, -p.v)
                    else Sweep(p.pos + p.v * dts[n], p.v)
  {
    var p := After(lo, hi, a, dts, n);
    assert After(lo, hi, a, dts, n + 1) == Bounce(lo, hi, p, dts[n]);
  }

  lemma SumOfFront(dts: seq<real>, n: nat)
    requires 0 < n <= |dts|
    ensures Sum(dts[..n]) == Sum(dts[..n - 1]) + dts[n - 1]
  {
    assert dts[..n][..n - 1] == dts[..n - 1];
  }

  lemma StraightStep(lo: real, hi: real, a: Sweep, t: real, dt: real, p: Sweep)
    requires p == Sweep(a.pos + Displacement(a.v, t), a.v)
    requires lo <= p.pos + Displacement(p.v, dt) <= hi
    ensures Bounce(lo, hi, p, dt) == Sweep(a.pos + Displacement(a.v, t + dt), a.v)
  {
    assert a.v * (t + dt) == a.v * t + a.v * dt;
  }

  lemma {:induction false} MovesStraight(lo: real, hi: real, a: Sweep, dts: seq<real>, n: nat)
    requires n <= |dts| && forall k | 0 <= k < n :: !Turns(lo, hi, a, dts, k)
    ensures After(lo, hi, a, dts, n) == Sweep(a.pos + Displacement(a.v, Sum(dts[..n])), a.v)
    decreases n
  {
    if n > 0 {
      hide Bounce, Displacement, Sum;
      MovesStraight(lo, hi, a, dts, n - 1);
      assert !Turns(lo, hi, a, dts, n - 1);
      SumOfFront(dts, n);
      StraightStep(lo, hi, a, Sum(dts[..n - 1]), dts[n - 1], After(lo, hi, a, dts, n - 1));
    }
  }

  /** Until it turns, the axis moves uniformly: it has gone as far as its speed takes it in the time
      that has passed. */
  lemma MovesUniformly(lo: real, hi: real, a: Sweep, dts: seq<real>, n: nat)
    requires n <= |dts| && forall k | 0 <= k < n :: !Turns(lo, hi, a, dts, k)
    ensures After(lo, hi, a, dts, n) == Sweep(a.pos + a.v * Sum(dts[..n]), a.v)
  {
    hide After, Turns, Sum;
    MovesStraight(lo, hi, a, dts, n);
  }

  predicate AtLeast(dts: seq<real>, shortest: real) {
    forall i | 0 <= i < |dts| :: dts[i] >= shortest
  }

  /** The least an update of at least `shortest` seconds moves the axis. */
  function Stride(v: real, shortest: real): (step: real)
    requires v != 0.0 && shortest > 0.0
    ensures step > 0.0
  {
    ScaleStrictly(0.0, Abs(v), shortest);
    Abs(v) * shortest
  }

  /** In this many updates of at least `shortest` seconds the axis crosses its whole range. */
  function CrossingBound(lo: real, hi: real, v: real, shortest: real): (n: nat)
    requires lo <= hi && v != 0.0 && shortest > 0.0
    ensures n > 0
  {
    QuotientIsNatural(hi - lo, Stride(v, shortest));
    Quotient(hi - lo, Stride(v, shortest)) + 1
  }

  lemma QuotientIsNatural(x: real, r: real)
    requires x >= 0.0 && r > 0.0
    ensures Quotient(x, r) >= 0
  {
    var k := Quotient(x, r);
    if k < 0 {
      Scale(k as real + 1.0, 0.0, r);
    }
  }

  // --------------------------------------------------------------- reaching a limit

  function Times(n: nat, step: real): (d: real) {
    n as real * step
  }

  lemma OneMore(n: nat, step: real)
    ensures Times(n + 1, step) == Times(n, step) + step && Times(0, step) == 0.0
  {
  }

  lemma StepDown(v: real, dt: real, shortest: real)
    requires v < 0.0 && dt >= shortest > 0.0
    ensures Displacement(v, dt) <= -Stride(v, shortest) < 0.0
  {
    Scale(shortest, dt, -v);
  }

  lemma TooFar(lo: real, hi: real, v: real, shortest: real)
    requires lo <= hi && v != 0.0 && shortest > 0.0
    ensures Times(CrossingBound(lo, hi, v, shortest), Stride(v, shortest)) > hi - lo
  {
    hide Stride;
  }

  lemma DescendsOnce(lo: real, hi: real, a: Sweep, dt: real, shortest: real)
    requires a.pos <= hi && a.v < 0.0 && dt >= shortest > 0.0
    requires a.pos + Displacement(a.v, dt) >= lo
    ensures var b := Bounce(lo, hi, a, dt);
            b.v == a.v && lo <= b.pos <= a.pos - Stride(a.v, shortest)
  {
    hide Displacement, Stride;
    StepDown(a.v, dt, shortest);
  }

  /** While a descending axis has not turned, every update takes it down by a full stride. */
  lemma {:induction false} Descends(lo: real, hi: real, a: Sweep, dts: seq<real>, n: nat,
                                    shortest: real)
    requires lo <= a.pos <= hi && a.v < 0.0 && shortest > 0.0 && n <= |dts|
    requires AtLeast(dts, shortest) && forall k | 0 <= k < n :: !Turns(lo, hi, a, dts, k)
    ensures var b := After(lo, hi, a, dts, n);
            b.v == a.v && lo <= b.pos <= a.pos - Times(n, Stride(a.v, shortest))
    ensures Stride(a.v, shortest) > 0.0 && Times(n, Stride(a.v, shortest)) >= 0.0
    decreases n
  {
    hide Displacement, Stride, Times, Bounce;
    if n == 0 {
      OneMore(0, Stride(a.v, shortest));
    } else {
      Descends(lo, hi, a, dts, n - 1, shortest);
      assert !Turns(lo, hi, a, dts, n - 1);
      DescendsOnce(lo, hi, After(lo, hi, a, dts, n - 1), dts[n - 1], shortest);
      OneMore(n - 1, Stride(a.v, shortest));
    }
  }

  /** The update at which a descending axis turns puts it at the lower limit. */
  lemma TurnsAtBottom(lo: real, hi: real, a: Sweep, dt: real, shortest: real)
    requires a.pos <= hi && a.v < 0.0 && dt >= shortest > 0.0
    requires a.pos + Displacement(a.v, dt) > hi || a.pos + Displacement(a.v, dt) < lo
    ensures Bounce(lo, hi, a, dt) == Sweep(lo, -a.v)
  {
    hide Displacement, Stride;
    StepDown(a.v, dt, shortest);
  }

  /** A descending axis turns at the lower limit within the crossing bound. */
  lemma DescentEnds(lo: real, hi: real, a: Sweep, dts: seq<real>, shortest: real)
    returns (n: nat)
    requires lo <= a.pos <= hi && a.v < 0.0 && shortest > 0.0 && AtLeast(dts, shortest)
    requires |dts| >= CrossingBound(lo, hi, a.v, shortest)
    ensures n < CrossingBound(lo, hi, a.v, shortest)
    ensures After(lo, hi, a, dts, n + 1) == Sweep(lo, -a.v)
    ensures FirstTurn(lo, hi, a, dts, n)
  {
    hide Displacement, Stride, Times, Bounce, CrossingBound;
    var bound := CrossingBound(lo, hi, a.v, shortest);
    n := 0;
    while n < bound && !Turns(lo, hi, a, dts, n)
      invariant n <= bound
      invariant forall k | 0 <= k < n :: !Turns(lo, hi, a, dts, k)
    {
      n := n + 1;
    }
    Descends(lo, hi, a, dts, n, shortest);
    TooFar(lo, hi, a.v, shortest);
    TurnsAtBottom(lo, hi, After(lo, hi, a, dts, n), dts[n], shortest);
  }

  /** Update `n` is the first to turn the axis round. */
  predicate FirstTurn(lo: real, hi: real, a: Sweep, dts: seq<real>, n: nat)
    requires n < |dts|
  {
    Turns(lo, hi, a, dts, n) && forall k | 0 <= k < n :: !Turns(lo, hi, a, dts, k)
  }

  // --------------------------------------------------------------- the mirror image

  function Mirror(a: Sweep): (b: Sweep) {
    Sweep(-a.pos, -a.v)
  }

  lemma DisplacementMirrored(v: real, dt: real)
    ensures Displacement(-v, dt) == -Displacement(v, dt)
  {
  }

  lemma BounceMirrored(lo: real, hi: real, a: Sweep, dt: real)
    requires lo <= hi
    ensures Bounce(-hi, -lo, Mirror(a), dt) == Mirror(Bounce(lo, hi, a, dt))
  {
    hide Displacement;
    DisplacementMirrored(a.v, dt);
  }

  lemma {:induction false} AfterMirrored(lo: real, hi: real, a: Sweep, dts: seq<real>, n: nat)
    requires lo <= hi && n <= |dts|
    ensures After(-hi, -lo, Mirror(a), dts, n) == Mirror(After(lo, hi, a, dts, n))
    decreases n
  {
    if n > 0 {
      hide Bounce, Mirror;
      AfterMirrored(lo, hi, a, dts, n - 1);
      BounceMirrored(lo, hi, After(lo, hi, a, dts, n - 1), dts[n - 1]);
    }
  }

  lemma TurnsMirrored(lo: real, hi: real, a: Sweep, dts: seq<real>, n: nat)
    requires lo <= hi && n < |dts|
    ensures Turns(-hi, -lo, Mirror(a), dts, n) <==> Turns(lo, hi, a, dts, n)
  {
    hide Displacement, Bounce;
    AfterMirrored(lo, hi, a, dts, n);
    DisplacementMirrored(After(lo, hi, a, dts, n).v, dts[n]);
  }

  lemma BoundMirrored(lo: real, hi: real, v: real, shortest: real)
    requires lo <= hi && v != 0.0 && shortest > 0.0
    ensures CrossingBound(-hi, -lo, -v, shortest) == CrossingBound(lo, hi, v, shortest)
  {
    assert -lo - -hi == hi - lo && Stride(-v, shortest) == Stride(v, shortest);
  }

  /** The limit an axis moving at `v` moves towards. */
  function Ahead(lo: real, hi: real, v: real): (limit: real) {
    if v < 0.0 then lo else hi
  }

  /** A moving axis turns at the limit ahead of it within the crossing bound. */
  lemma CrossingEnds(lo: real, hi: real, a: Sweep, dts: seq<real>, shortest: real)
    returns (n: nat)
    requires lo <= a.pos <= hi && a.v != 0.0 && shortest > 0.0 && AtLeast(dts, shortest)
    requires |dts| >= CrossingBound(lo, hi, a.v, shortest)
    ensures n < CrossingBound(lo, hi, a.v, shortest)
    ensures After(lo, hi, a, dts, n + 1) == Sweep(Ahead(lo, hi, a.v), -a.v)
    ensures FirstTurn(lo, hi, a, dts, n)
  {
    hide Displacement, Bounce, CrossingBound, Stride, Turns, After;
    if a.v < 0.0 {
      n := DescentEnds(lo, hi, a, dts, shortest);
    } else {
      BoundMirrored(lo, hi, a.v, shortest);
      n := DescentEnds(-hi, -lo, Mirror(a), dts, shortest);
      AfterMirrored(lo, hi, a, dts, n + 1);
      TurnsMirrored(lo, hi, a, dts, n);
      forall k | 0 <= k < n ensures !Turns(lo, hi, a, dts, k) {
        TurnsMirrored(lo, hi, a, dts, k);
      }
    }
  }

  // --------------------------------------------------------------- for ever

  /** The state right after the `m`-th turn: at the limit behind, moving away from it. */
  function AfterTurns(lo: real, hi: real, v: real, m: nat): (b: Sweep)
    requires m > 0
  {
    if m % 2 == 1 then Sweep(Ahead(lo, hi, v), -v) else Sweep(Ahead(lo, hi, -v), v)
  }

  lemma {:induction false} AfterRest(lo: real, hi: real, a: Sweep, dts: seq<real>, i: nat, n: nat)
    requires i + n <= |dts|
    ensures After(lo, hi, a, dts, i + n)
         == After(lo, hi, After(lo, hi, a, dts, i), dts[i..], n)
    decreases n
  {
    if n > 0 {
      hide Bounce;
      AfterRest(lo, hi, a, dts, i, n - 1);
      assert dts[i..][n - 1] == dts[i + n - 1];
    }
  }

  lemma {:induction false} TurnCountRest(lo: real, hi: real, a: Sweep, dts: seq<real>, i: nat,
                                         n: nat)
    requires i + n <= |dts|
    ensures TurnCount(lo, hi, a, dts, i + n) == TurnCount(lo, hi, a, dts, i)
         + TurnCount(lo, hi, After(lo, hi, a, dts, i), dts[i..], n)
    decreases n
  {
    if n > 0 {
      hide Bounce, After, Displacement;
      TurnCountRest(lo, hi, a, dts, i, n - 1);
      AfterRest(lo, hi, a, dts, i, n - 1);
      assert dts[i..][n - 1] == dts[i + n - 1];
    }
  }

  lemma {:induction false} NoTurnsYet(lo: real, hi: real, a: Sweep, dts: seq<real>, n: nat)
    requires n <= |dts| && forall k | 0 <= k < n :: !Turns(lo, hi, a, dts, k)
    ensures TurnCount(lo, hi, a, dts, n) == 0
    decreases n
  {
    hide Turns;
    if n > 0 {
      NoTurnsYet(lo, hi, a, dts, n - 1);
    }
  }

  lemma AtLeastRest(dts: seq<real>, shortest: real, i: nat)
    requires AtLeast(dts, shortest) && i <= |dts|
    ensures AtLeast(dts[i..], shortest)
  {
  }

  /** Wherever the axis is within its limits, its next turn comes within the crossing bound. */
  lemma NextTurn(lo: real, hi: real, a: Sweep, dts: seq<real>, shortest: real, i: nat)
    returns (n: nat)
    requires lo <= hi && a.v != 0.0 && shortest > 0.0 && AtLeast(dts, shortest)
    requires |dts| >= i + CrossingBound(lo, hi, a.v, shortest)
    requires var b := After(lo, hi, a, dts, i);
             lo <= b.pos <= hi && b.v in {a.v, -a.v}
    ensures i < n <= i + CrossingBound(lo, hi, a.v, shortest)
    ensures TurnCount(lo, hi, a, dts, n) == TurnCount(lo, hi, a, dts, i) + 1
    ensures var b := After(lo, hi, a, dts, i);
            After(lo, hi, a, dts, n) == Sweep(Ahead(lo, hi, b.v), -b.v)
  {
    hide Bounce, CrossingBound, Stride, Turns, After, Displacement, Ahead, AtLeast;
    var b := After(lo, hi, a, dts, i);
    SameSpeedSameBound(lo, hi, a.v, shortest);
    AtLeastRest(dts, shortest, i);
    var k := CrossingEnds(lo, hi, b, dts[i..], shortest);
    NoTurnsYet(lo, hi, b, dts[i..], k);
    AfterRest(lo, hi, a, dts, i, k + 1);
    TurnCountRest(lo, hi, a, dts, i, k + 1);
    n := i + k + 1;
  }

  lemma OneCrossingLess(m: nat, bound: nat)
    requires m > 0
    ensures m * bound == (m - 1) * bound + bound
  {
  }

  /** A sweeping axis goes on for ever from limit to limit: its `m`-th turn happens within `m`
      crossing bounds, and leaves it exactly at the limits in turn, at its old speed. */
  lemma {:induction false} AlternatesForEver(lo: real, hi: real, a: Sweep, dts: seq<real>,
                                             shortest: real, m: nat) returns (n: nat)
    requires lo <= a.pos <= hi && a.v != 0.0 && shortest > 0.0 && AtLeast(dts, shortest) && m > 0
    requires |dts| >= m * CrossingBound(lo, hi, a.v, shortest)
    ensures n <= m * CrossingBound(lo, hi, a.v, shortest)
    ensures TurnCount(lo, hi, a, dts, n) == m
    ensures After(lo, hi, a, dts, n) == AfterTurns(lo, hi, a.v, m)
    decreases m
  {
    hide Bounce, CrossingBound, Stride, Turns, Displacement, AtLeast;
    OneCrossingLess(m, CrossingBound(lo, hi, a.v, shortest));
    if m == 1 {
      n := NextTurn(lo, hi, a, dts, shortest, 0);
    } else {
      var i := AlternatesForEver(lo, hi, a, dts, shortest, m - 1);
      n := NextTurn(lo, hi, a, dts, shortest, i);
    }
  }

  lemma SameSpeedSameBound(lo: real, hi: real, v: real, shortest: real)
    requires lo <= hi && v != 0.0 && shortest > 0.0
    ensures CrossingBound(lo, hi, -v, shortest) == CrossingBound(lo, hi, v, shortest)
  {
    assert Stride(-v, shortest) == Stride(v, shortest);
  }
}
