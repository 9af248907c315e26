/** The evaluator's few fields against the whole history of requests and readings, and how far
    the gimbal can have turned while it is reported locked. */
module GimbalYawHistory {
  import opened Clock
  import opened GimbalYaw
  import opened Numbers

  datatype Event = Asked(request: Request) | Sensed(feedback: Feedback)

  datatype State = State(requested: RequestState, measured: FeedbackState)

  const START := State(NO_REQUEST, NO_FEEDBACK)

  function Step(cfg: Config, s: State, e: Event): (t: State) {
    match e
    case Asked(r) => s.(requested := AfterRequest(s.requested, r))
    case Sensed(f) => s.(measured := AfterFeedback(cfg, s.measured, f))
  }

  /** The evaluator after a run of requests and readings in any interleaving. */
  function After(cfg: Config, es: seq<Event>): (s: State) {
    if |es| == 0 then START else Step(cfg, After(cfg, es[..|es| - 1]), es[|es| - 1])
  }

  function Requests(es: seq<Event>): (rs: seq<Request>) {
    if |es| == 0 then []
    else Requests(es[..|es| - 1]) + match es[|es| - 1] case Asked(r) => [r] case Sensed(_) => []
  }

  function Readings(es: seq<Event>): (fs: seq<Feedback>) {
    if |es| == 0 then []
    else Readings(es[..|es| - 1]) + match es[|es| - 1] case Asked(_) => [] case Sensed(f) => [f]
  }

  function RequestsKept(rs: seq<Request>, n: nat): (s: RequestState)
    requires n <= |rs|
    decreases n
  {
    if n == 0 then NO_REQUEST else AfterRequest(RequestsKept(rs, n - 1), rs[n - 1])
  }

  function Tracked(cfg: Config, fs: seq<Feedback>, n: nat): (s: FeedbackState)
    requires n <= |fs|
    decreases n
  {
    if n == 0 then NO_FEEDBACK else AfterFeedback(cfg, Tracked(cfg, fs, n - 1), fs[n - 1])
  }

  lemma {:induction false} RequestsKeptOfPrefix(rs: seq<Request>, r: seq<Request>, n: nat)
    requires n <= |rs|
    ensures RequestsKept(rs + r, n) == RequestsKept(rs, n)
    decreases n
  {
    if n > 0 {
      RequestsKeptOfPrefix(rs, r, n - 1);
    }
  }

  lemma {:induction false} TrackedOfPrefix(cfg: Config, fs: seq<Feedback>, f: seq<Feedback>, n: nat)
    requires n <= |fs|
    ensures Tracked(cfg, fs + f, n) == Tracked(cfg, fs, n)
    decreases n
  {
    if n > 0 {
      TrackedOfPrefix(cfg, fs, f, n - 1);
    }
  }

  /** How requests and readings interleave does not matter. */
  lemma {:induction false} InterleavingIrrelevant(cfg: Config, es: seq<Event>)
    ensures var rs, fs := Requests(es), Readings(es);
            After(cfg, es) == State(RequestsKept(rs, |rs|), Tracked(cfg, fs, |fs|))
    decreases |es|
  {
    if |es| > 0 {
      hide AfterFeedback, AfterRequest;
      var front := es[..|es| - 1];
      InterleavingIrrelevant(cfg, front);
      match es[|es| - 1]
      case Asked(r) =>
        RequestsKeptOfPrefix(Requests(front), [r], |Requests(front)|);
        assert Readings(front) + [] == Readings(front);
      case Sensed(f) =>
        TrackedOfPrefix(cfg, Readings(front), [f], |Readings(front)|);
        assert Requests(front) + [] == Requests(front);
    }
  }

  // ------------------------------------------------------------------ requests

  /** Request `i` is the first of the first `n` to carry their largest sequence number. */
  predicate FirstLargest(rs: seq<Request>, n: nat, i: int)
    requires n <= |rs|
  {
    && 0 <= i < n
    && (forall j | 0 <= j < i :: rs[j].sequence < rs[i].sequence)
    && (forall j | i <= j < n :: rs[j].sequence <= rs[i].sequence)
  }

  function Keeps(r: Request): (s: RequestState) {
    RequestState(true, r.sequence, r.authority, r.requireLock)
  }

  /** The request kept is the first one with the largest sequence number received. */
  lemma {:induction false} KeptIsFirstLargest(rs: seq<Request>, n: nat) returns (i: nat)
    requires 0 < n <= |rs|
    ensures FirstLargest(rs, n, i) && RequestsKept(rs, n) == Keeps(rs[i])
    decreases n
  {
    if n == 1 {
      i := 0;
    } else {
      i := KeptIsFirstLargest(rs, n - 1);
      if rs[i].sequence < rs[n - 1].sequence {
        i := n - 1;
      }
    }
  }

  lemma {:induction false} SequenceNeverDecreases(rs: seq<Request>, m: nat, n: nat)
    requires m <= n <= |rs|
    ensures RequestsKept(rs, m).sequence <= RequestsKept(rs, n).sequence
    ensures RequestsKept(rs, m).has ==> RequestsKept(rs, n).has
    decreases n
  {
    if m < n {
      SequenceNeverDecreases(rs, m, n - 1);
    }
  }

  // ------------------------------------------------------------------ readings

  datatype Option<T> = None | Some(value: T)

  /** The rate in force at reading `k`: measured against the reading before if the clock has
      advanced, otherwise the rate in force at that reading. */
  function RateAt(fs: seq<Feedback>, k: nat): (rate: Option<real>)
    requires k < |fs|
    decreases k
  {
    if k == 0 then None
    else if fs[k].now > fs[k - 1].now then Some(RateBetween(fs[k - 1].yaw, fs[k - 1].now, fs[k]))
    else RateAt(fs, k - 1)
  }

  predicate StillAt(cfg: Config, fs: seq<Feedback>, k: nat)
    requires k < |fs|
  {
    RateAt(fs, k).Some? && Abs(RateAt(fs, k).value) <= cfg.lockRate
  }

  /** Readings `s` to `n - 1` are still and reading `s - 1` is not. */
  predicate StillRun(cfg: Config, fs: seq<Feedback>, s: int, n: nat)
    requires n <= |fs|
  {
    0 < s < n && !StillAt(cfg, fs, s - 1) && forall k | s <= k < n :: StillAt(cfg, fs, k)
  }

  /** The yaw of the first reading with a good transform, if there is one. */
  function Reference(fs: seq<Feedback>, n: nat): (yaw: Option<real>)
    requires n <= |fs|
    decreases n
  {
    if n == 0 then None
    else if Reference(fs, n - 1).Some? then Reference(fs, n - 1)
    else if fs[n - 1].tfOk then Some(fs[n - 1].yaw)
    else None
  }

  /** What the fields say about the first `n` readings, apart from the moment of standstill. */
  predicate Summarises(cfg: Config, fs: seq<Feedback>, n: nat, s: FeedbackState)
    requires n <= |fs|
  {
    && s.has == (n > 0)
    && (n > 0 ==>
          && s.tfOk == fs[n - 1].tfOk && s.yaw == fs[n - 1].yaw && s.body == fs[n - 1].body
          && s.time == fs[n - 1].now
          && (if s.hasRate then RateAt(fs, n - 1) == Some(s.rate) else RateAt(fs, n - 1) == None)
          && s.still == StillAt(cfg, fs, n - 1))
    && (if s.hasFake then Reference(fs, n) == Some(s.fake)
        else Reference(fs, n) == None && s.fake == 0.0)
    && (n == 0 ==> !s.still && !s.hasRate)
  }

  lemma SummarisesStep(cfg: Config, fs: seq<Feedback>, n: nat, s: FeedbackState)
    requires 0 < n <= |fs| && Summarises(cfg, fs, n - 1, s)
    ensures Summarises(cfg, fs, n, AfterFeedback(cfg, s, fs[n - 1]))
  {
    hide RateBetween;
  }

  lemma {:induction false} TrackedSummarises(cfg: Config, fs: seq<Feedback>, n: nat)
    requires n <= |fs|
    ensures Summarises(cfg, fs, n, Tracked(cfg, fs, n))
    decreases n
  {
    if n > 0 {
      TrackedSummarises(cfg, fs, n - 1);
      SummarisesStep(cfg, fs, n, Tracked(cfg, fs, n - 1));
    }
  }

  /** The moment of standstill is that of the reading with which the present run of still
      readings began. */
  lemma {:induction false} StillSinceStart(cfg: Config, fs: seq<Feedback>, n: nat) returns (s: nat)
    requires n <= |fs| && Tracked(cfg, fs, n).still
    ensures StillRun(cfg, fs, s, n) && Tracked(cfg, fs, n).stillSince == fs[s].now
    decreases n
  {
    hide RateBetween, RateAt, Summarises;
    assert n > 0;
    var before := Tracked(cfg, fs, n - 1);
    TrackedSummarises(cfg, fs, n - 1);
    TrackedSummarises(cfg, fs, n);
    StillFields(cfg, fs, n);
    if before.still {
      s := StillSinceStart(cfg, fs, n - 1);
    } else {
      StillFields(cfg, fs, n - 1);
      s := n - 1;
    }
  }

  lemma StillFields(cfg: Config, fs: seq<Feedback>, n: nat)
    requires n <= |fs| && Summarises(cfg, fs, n, Tracked(cfg, fs, n))
    ensures Tracked(cfg, fs, n).still <==> n > 0 && StillAt(cfg, fs, n - 1)
  {
  }

  // ------------------------------------------------------- the status, declaratively

  /** The last reading is recent enough and came with a good transform. */
  predicate HealthyAt(cfg: Config, fs: seq<Feedback>, now: Time) {
    && |fs| > 0
    && var last := fs[|fs| - 1];
       last.tfOk && ToMs(now - last.now) <= cfg.jointTimeout && ToMs(now - last.now) <= cfg.tfTimeout
  }

  /** The present run of still readings began at least the dwell ago. */
  predicate StillLongEnough(cfg: Config, fs: seq<Feedback>, now: Time, s: int) {
    StillRun(cfg, fs, s, |fs|) && ToMs(now - fs[s].now) >= cfg.lockDwell
  }

  ghost predicate LockedAt(cfg: Config, fs: seq<Feedback>, now: Time) {
    HealthyAt(cfg, fs, now) && exists s :: StillLongEnough(cfg, fs, now, s)
  }

  /** Request `r` may be acknowledged now. */
  ghost predicate MayAck(cfg: Config, r: Request, fs: seq<Feedback>, now: Time) {
    && HealthyAt(cfg, fs, now)
    && (r.authority == BODY_YAW_FOLLOW ==> cfg.allowBodyYawFollow)
    && (r.requireLock ==> LockedAt(cfg, fs, now))
  }

  lemma HealthIsHistory(cfg: Config, fs: seq<Feedback>, now: Time)
    ensures Healthy(cfg, Tracked(cfg, fs, |fs|), now) <==> HealthyAt(cfg, fs, now)
  {
    hide StillAt, RateAt, ToMs;
    TrackedSummarises(cfg, fs, |fs|);
  }

  lemma LockIsHistory(cfg: Config, fs: seq<Feedback>, now: Time)
    ensures Locked(cfg, Tracked(cfg, fs, |fs|), now) <==> LockedAt(cfg, fs, now)
  {
    hide StillAt, RateAt, ToMs, Healthy, HealthyAt;
    var m := Tracked(cfg, fs, |fs|);
    HealthIsHistory(cfg, fs, now);
    TrackedSummarises(cfg, fs, |fs|);
    StillFields(cfg, fs, |fs|);
    if m.still {
      var s := StillSinceStart(cfg, fs, |fs|);
      forall r | r != s ensures !StillRun(cfg, fs, r, |fs|) {
        if s < r {
          NoLaterStillRun(cfg, fs, s, r, |fs|);
        } else if StillRun(cfg, fs, r, |fs|) {
          NoLaterStillRun(cfg, fs, r, s, |fs|);
        }
      }
      assert StillLongEnough(cfg, fs, now, s) <==> ToMs(now - fs[s].now) >= cfg.lockDwell;
    } else {
      forall s ensures !StillLongEnough(cfg, fs, now, s) {
      }
    }
  }

  lemma NoLaterStillRun(cfg: Config, fs: seq<Feedback>, r: int, s: int, n: nat)
    requires n <= |fs| && StillRun(cfg, fs, r, n) && r < s
    ensures !StillRun(cfg, fs, s, n)
  {
    hide StillAt;
    if s < n {
      assert StillAt(cfg, fs, s - 1);
    }
  }

  /** What is published, as a function of the whole history: the sequence number is that of the
      first request with the largest one, its authority is acknowledged exactly if the readings
      allow it, and HOLD_SAFE_STOP is reported otherwise; yaw and body yaw are those last read,
      and the reference yaw is that of the first reading with a good transform. */
  lemma StatusRefinesHistory(cfg: Config, es: seq<Event>, now: Time) returns (i: nat)
    ensures var rs, fs, s := Requests(es), Readings(es), After(cfg, es);
            var o := Status(cfg, s.requested, s.measured, now);
            && (o.tfHealthy <==> HealthyAt(cfg, fs, now))
            && (o.locked <==> LockedAt(cfg, fs, now))
            && (|rs| == 0 ==> o.sequence == 0 && o.authority == HOLD_SAFE_STOP)
            && (|rs| > 0 ==>
                  && FirstLargest(rs, |rs|, i) && o.sequence == rs[i].sequence
                  && (o.reason == AckGranted <==> MayAck(cfg, rs[i], fs, now))
                  && o.authority == (if MayAck(cfg, rs[i], fs, now) then rs[i].authority
                                     else HOLD_SAFE_STOP))
    ensures var fs, s := Readings(es), After(cfg, es);
            var o := Status(cfg, s.requested, s.measured, now);
            && (|fs| > 0 ==> o.gimbalYaw == fs[|fs| - 1].yaw && o.bodyYaw == fs[|fs| - 1].body)
            && o.fakeYaw == match Reference(fs, |fs|) case Some(yaw) => yaw case None => 0.0
  {
    hide StillAt, RateAt, ToMs, HealthyAt, LockedAt, AfterFeedback, AfterRequest, Step;
    var rs, fs := Requests(es), Readings(es);
    InterleavingIrrelevant(cfg, es);
    HealthIsHistory(cfg, fs, now);
    LockIsHistory(cfg, fs, now);
    TrackedSummarises(cfg, fs, |fs|);
    LockedIsHealthy(cfg, Tracked(cfg, fs, |fs|), now);
    i := 0;
    if |rs| > 0 {
      i := KeptIsFirstLargest(rs, |rs|);
    }
    VerdictGrants(cfg, RequestsKept(rs, |rs|), Tracked(cfg, fs, |fs|), now);
  }

  lemma LockedIsHealthy(cfg: Config, s: FeedbackState, now: Time)
    ensures Locked(cfg, s, now) ==> Healthy(cfg, s, now)
  {
  }

  lemma VerdictGrants(cfg: Config, r: RequestState, s: FeedbackState, now: Time)
    ensures Verdict(cfg, r, s, now) == AckGranted
       <==> && Healthy(cfg, s, now) && r.has
            && (r.authority == BODY_YAW_FOLLOW ==> cfg.allowBodyYawFollow)
            && (r.requireLock ==> Locked(cfg, s, now))
  {
    hide ToMs;
  }

  /** The last reading is recent enough for a joint state. */
  predicate ReadAt(cfg: Config, fs: seq<Feedback>, now: Time) {
    |fs| > 0 && ToMs(now - fs[|fs| - 1].now) <= cfg.jointTimeout
  }

  /** Request `r` asks for what is never granted. */
  predicate Forbidden(cfg: Config, r: Request) {
    r.authority == 2 && !cfg.allowBodyYawFollow
  }

  /** The reason published, as a function of the whole history: missing readings come before an
      unhealthy transform, that before a missing request, and what is forbidden before what has to
      wait for the lock. */
  lemma ReasonIsHistory(cfg: Config, es: seq<Event>, now: Time) returns (i: nat)
    ensures |Requests(es)| > 0 ==> FirstLargest(Requests(es), |Requests(es)|, i)
    ensures var rs, fs, s := Requests(es), Readings(es), After(cfg, es);
            Status(cfg, s.requested, s.measured, now).reason ==
              if !ReadAt(cfg, fs, now) then FeedbackStale
              else if !HealthyAt(cfg, fs, now) then TfUnhealthy
              else if |rs| == 0 then NoRequest
              else if Forbidden(cfg, rs[i]) then BodyYawFollowForbidden
              else if rs[i].requireLock && !LockedAt(cfg, fs, now) then NotLocked
              else AckGranted
  {
    hide StillAt, ToMs, HealthyAt, LockedAt, Healthy, Locked, Step;
    var rs, fs := Requests(es), Readings(es);
    InterleavingIrrelevant(cfg, es);
    HealthIsHistory(cfg, fs, now);
    LockIsHistory(cfg, fs, now);
    TrackedSummarises(cfg, fs, |fs|);
    i := 0;
    if |rs| > 0 {
      i := KeptIsFirstLargest(rs, |rs|);
    }
  }

  /** The reference yaw never changes once it is set. */
  lemma {:induction false} ReferenceIsFixed(fs: seq<Feedback>, m: nat, n: nat)
    requires m <= n <= |fs| && Reference(fs, m).Some?
    ensures Reference(fs, n) == Reference(fs, m)
    decreases n
  {
    if m < n {
      ReferenceIsFixed(fs, m, n - 1);
    }
  }

  // ------------------------------------------------------------------ drift

  /** From reading `p` to reading `q` the gimbal has turned, up to full turns, by no more than
      the rate bound times the time between them. */
  ghost predicate DriftWithin(cfg: Config, fs: seq<Feedback>, p: nat, q: nat)
    requires p <= q < |fs|
  {
    exists m: int :: Drifts(cfg, fs, p, q, m)
  }

  function Seconds(ns: int): (s: real) {
    ns as real / SECOND
  }

  predicate Drifts(cfg: Config, fs: seq<Feedback>, p: nat, q: nat, m: int)
    requires p <= q < |fs|
  {
    Abs(fs[q].yaw - fs[p].yaw - TWO_PI * m as real) <= cfg.lockRate * Seconds(fs[q].now - fs[p].now)
  }

  /** The clock has advanced since the reading before, or the yaw is the same. */
  predicate Honest(fs: seq<Feedback>, k: nat)
    requires 0 < k < |fs|
  {
    fs[k].now > fs[k - 1].now || Normalize(fs[k].yaw - fs[k - 1].yaw) == 0.0
  }

  /** The readings carry the times of a clock that never goes back. */
  predicate Monotone(fs: seq<Feedback>) {
    forall k | 0 < k < |fs| :: fs[k - 1].now <= fs[k].now
  }

  /** One step is within the bound. */
  ghost predicate StepWithin(cfg: Config, fs: seq<Feedback>, k: nat)
    requires 0 < k < |fs|
  {
    DriftWithin(cfg, fs, k - 1, k)
  }

  /** Between any two of the readings `s - 1` to `n - 1` the drift is within the bound. */
  ghost predicate RunWithin(cfg: Config, fs: seq<Feedback>, s: int, n: nat)
    requires 0 < s && n <= |fs|
  {
    forall p: nat, q: nat | s - 1 <= p <= q < n :: DriftWithin(cfg, fs, p, q)
  }

  predicate RunHonest(fs: seq<Feedback>, s: int, n: nat)
    requires 0 < s && n <= |fs|
  {
    forall k: nat | s <= k < n :: Honest(fs, k)
  }

  lemma RateTimesTime(delta: real, dt: real, rate: real)
    requires dt > 0.0 && Abs(delta / dt) <= rate
    ensures Abs(delta) <= rate * dt
  {
    assert delta == (delta / dt) * dt;
    assert -rate <= delta / dt <= rate;
  }

  lemma NormalizeOfTurns(x: real, m: int)
    requires x == TWO_PI * m as real
    ensures Normalize(x) == 0.0
  {
    var y := m - Turns(x);
    assert Normalize(x) == TWO_PI * y as real;
    assert -1 < y < 1;
  }

  lemma ScaledRate(n: real, ns: int, rate: real)
    requires ns > 0
    ensures Abs(n / (ns as real / SECOND)) <= rate <==> Abs(n) * SECOND <= rate * ns as real
  {
    var dt := ns as real / SECOND;
    QuotientAtMost(n, dt, rate);
    assert rate * dt * SECOND == rate * ns as real;
  }

  lemma QuotientAtMost(n: real, dt: real, rate: real)
    requires dt > 0.0
    ensures Abs(n / dt) <= rate <==> Abs(n) <= rate * dt
  {
    var q := n / dt;
    assert n == q * dt;
    if q > rate {
      assert q * dt > rate * dt;
    } else if q < -rate {
      assert q * dt < -rate * dt;
    }
  }

  /** A reading is still exactly if the yaw has turned since the reading before, the short way round,
      by no more than the rate bound allows in the nanoseconds between them. If no time has passed it
      is as still as the one before, and the first reading never is. */
  lemma StillIff(cfg: Config, fs: seq<Feedback>, k: nat)
    requires k < |fs|
    ensures StillAt(cfg, fs, k) <==>
              && k > 0
              && if fs[k].now > fs[k - 1].now then
                   Abs(Normalize(fs[k].yaw - fs[k - 1].yaw)) * 1_000_000_000.0
                   <= cfg.lockRate * (fs[k].now - fs[k - 1].now) as real
                 else StillAt(cfg, fs, k - 1)
  {
    hide Abs, Normalize;
    if k > 0 && fs[k].now > fs[k - 1].now {
      ScaledRate(Normalize(fs[k].yaw - fs[k - 1].yaw), fs[k].now - fs[k - 1].now, cfg.lockRate);
    }
  }

  /** One still step is within the bound exactly if it is honest: with a repeated time stamp the
      old rate stays in force and the yaw may have jumped. */
  lemma StepDriftIff(cfg: Config, fs: seq<Feedback>, k: nat)
    requires 0 < k < |fs| && fs[k - 1].now <= fs[k].now && StillAt(cfg, fs, k)
    ensures StepWithin(cfg, fs, k) <==> Honest(fs, k)
  {
    var p := k - 1;
    var d := fs[k].yaw - fs[k - 1].yaw;
    var n := Normalize(d);
    if fs[k].now > fs[k - 1].now {
      RateTimesTime(n, Seconds(fs[k].now - fs[k - 1].now), cfg.lockRate);
      assert Drifts(cfg, fs, k - 1, k, Turns(d));
    } else {
      assert Seconds(fs[k].now - fs[k - 1].now) == 0.0;
      if m: int :| Drifts(cfg, fs, p, k, m) {
        NormalizeOfTurns(d, m);
      } else {
        assert !Drifts(cfg, fs, k - 1, k, Turns(d));
      }
    }
  }

  lemma DriftsAdd(cfg: Config, fs: seq<Feedback>, p: nat, k: nat, q: nat, m: int, l: int)
    requires p <= k <= q < |fs| && Drifts(cfg, fs, p, k, m) && Drifts(cfg, fs, k, q, l)
    ensures Drifts(cfg, fs, p, q, m + l)
  {
    var a, b := fs[k].yaw - fs[p].yaw - TWO_PI * m as real, fs[q].yaw - fs[k].yaw - TWO_PI * l as real;
    assert fs[q].yaw - fs[p].yaw - TWO_PI * (m + l) as real == a + b;
    var t, u := Seconds(fs[k].now - fs[p].now), Seconds(fs[q].now - fs[k].now);
    assert Seconds(fs[q].now - fs[p].now) == t + u;
    assert cfg.lockRate * (t + u) == cfg.lockRate * t + cfg.lockRate * u;
  }

  lemma {:induction false} DriftAccumulates(cfg: Config, fs: seq<Feedback>, p: nat, q: nat)
    requires p <= q < |fs| && forall k | p < k <= q :: StepWithin(cfg, fs, k)
    ensures DriftWithin(cfg, fs, p, q)
    decreases q
  {
    hide Drifts;
    if p == q {
      NoDrift(cfg, fs, p);
    } else {
      DriftAccumulates(cfg, fs, p, q - 1);
      var m :| Drifts(cfg, fs, p, q - 1, m);
      assert StepWithin(cfg, fs, q);
      var l :| Drifts(cfg, fs, q - 1, q, l);
      DriftsAdd(cfg, fs, p, q - 1, q, m, l);
    }
  }

  lemma NoDrift(cfg: Config, fs: seq<Feedback>, p: nat)
    requires p < |fs|
    ensures Drifts(cfg, fs, p, p, 0)
  {
  }

  /** Over a run of still readings on a clock that never goes back, the measured yaw moves by at
      most the rate bound times the elapsed time, between any two readings and from the one
      before the run, exactly if no reading repeats a time stamp with another yaw. */
  lemma RunDriftIff(cfg: Config, fs: seq<Feedback>, s: nat, n: nat)
    requires n <= |fs| && StillRun(cfg, fs, s, n) && Monotone(fs)
    ensures RunWithin(cfg, fs, s, n) <==> RunHonest(fs, s, n)
  {
    hide DriftWithin, Honest, StillAt;
    forall k: nat | s <= k < n ensures StepWithin(cfg, fs, k) <==> Honest(fs, k) {
      assert StillAt(cfg, fs, k) && fs[k - 1].now <= fs[k].now;
      StepDriftIff(cfg, fs, k);
    }
    if forall k: nat | s <= k < n :: Honest(fs, k) {
      forall p: nat, q: nat | s - 1 <= p <= q < n ensures DriftWithin(cfg, fs, p, q) {
        forall k | p < k <= q ensures StepWithin(cfg, fs, k) {
          assert Honest(fs, k);
        }
        DriftAccumulates(cfg, fs, p, q);
      }
    }
  }

  lemma LockedRun(cfg: Config, fs: seq<Feedback>, now: Time) returns (s: nat)
    requires LockedAt(cfg, fs, now)
    ensures StillLongEnough(cfg, fs, now, s)
  {
    var r :| StillLongEnough(cfg, fs, now, r);
    s := r;
  }

  function Least(a: int, b: int): (c: int) {
    if a < b then a else b
  }

  /** The time, in nanoseconds, from reading `s` to the last one. */
  function Span(fs: seq<Feedback>, s: nat): (ns: int)
    requires s < |fs|
  {
    fs[|fs| - 1].now - fs[s].now
  }

  /** The dwell, less the time for which a reading counts as fresh, less a millisecond. */
  function LeastSpan(cfg: Config): (ns: int) {
    (cfg.lockDwell - Least(cfg.jointTimeout, cfg.tfTimeout) - 1) * MS
  }

  lemma ToMsAtLeast(ns: int, limit: int)
    ensures limit > 0 ==> (ToMs(ns) >= limit <==> ns >= limit * MS)
    ensures limit == 0 ==> (ToMs(ns) >= limit <==> ns > -MS)
    ensures ToMs(ns) >= limit ==> ns > (limit - 1) * MS
    ensures ToMs(ns) <= limit ==> ns < (limit + 1) * MS
    ensures limit < 0 && ToMs(ns) <= limit ==> ns <= limit * MS
  {
  }

  /** How much time the readings of the present still run cover, when locked is reported. */
  lemma RunCovers(cfg: Config, fs: seq<Feedback>, now: Time, s: nat)
    requires Monotone(fs) && HealthyAt(cfg, fs, now) && StillLongEnough(cfg, fs, now, s)
    ensures Span(fs, s) > LeastSpan(cfg)
  {
    hide StillAt, ToMs;
    var last := fs[|fs| - 1].now;
    ToMsAtLeast(now - fs[s].now, cfg.lockDwell);
    ToMsAtLeast(now - last, cfg.jointTimeout);
    ToMsAtLeast(now - last, cfg.tfTimeout);
    NeverBack(fs, s, |fs| - 1);
  }

  lemma {:induction false} NeverBack(fs: seq<Feedback>, i: nat, j: nat)
    requires Monotone(fs) && i <= j < |fs|
    ensures fs[i].now <= fs[j].now
    decreases j
  {
    if i < j {
      NeverBack(fs, i, j - 1);
      assert fs[j - 1].now <= fs[j].now;
    }
  }

  /** Locked means still, exactly if time stamps are not repeated: whenever the evaluator reports
      locked, the present run of still readings began at least the dwell ago, and over that run
      (and from the reading before it) the yaw has drifted by no more than the rate bound allows
      exactly if no reading of the run repeats a time stamp with another yaw. The readings of the
      run cover the dwell except for as long as a reading stays fresh. */
  lemma LockedMeansStill(cfg: Config, es: seq<Event>, now: Time) returns (s: nat)
    requires Monotone(Readings(es))
    requires Status(cfg, After(cfg, es).requested, After(cfg, es).measured, now).locked
    ensures StillLongEnough(cfg, Readings(es), now, s)
    ensures var fs := Readings(es); RunWithin(cfg, fs, s, |fs|) <==> RunHonest(fs, s, |fs|)
    ensures Span(Readings(es), s) > LeastSpan(cfg)
  {
    hide DriftWithin, Honest, LockedAt, StillAt, HealthyAt, Status, Monotone, Readings, After;
    var fs := Readings(es);
    var i := StatusRefinesHistory(cfg, es, now);
    s := LockedRun(cfg, fs, now);
    LockedIsFresh(cfg, fs, now);
    RunDriftIff(cfg, fs, s, |fs|);
    RunCovers(cfg, fs, now, s);
  }

  lemma LockedIsFresh(cfg: Config, fs: seq<Feedback>, now: Time)
    requires LockedAt(cfg, fs, now)
    ensures HealthyAt(cfg, fs, now)
  {
    hide HealthyAt;
  }

  /** The time-outs and the dwell as the node clamps them. */
  predicate Clamped(cfg: Config) {
    cfg.jointTimeout >= 1 && cfg.tfTimeout >= 1 && cfg.lockDwell >= 0
  }

  /** A report of locked rests on readings that cover the whole dwell exactly if the lock was
      already due when the last reading arrived; otherwise part of the dwell is silence. */
  lemma ReadingsCoverDwellIff(cfg: Config, fs: seq<Feedback>, now: Time, s: nat)
    requires Clamped(cfg) && Monotone(fs) && HealthyAt(cfg, fs, now)
    requires StillLongEnough(cfg, fs, now, s)
    ensures Span(fs, s) >= cfg.lockDwell * MS
       <==> LockedAt(cfg, fs, fs[|fs| - 1].now)
  {
    hide StillAt;
    var last := fs[|fs| - 1].now;
    ToMsAtLeast(last - fs[s].now, cfg.lockDwell);
    NeverBack(fs, s, |fs| - 1);
    assert ToMs(0) == 0;
    if LockedAt(cfg, fs, last) {
      var r := LockedRun(cfg, fs, last);
      OneStillRun(cfg, fs, r, s, |fs|);
    } else {
      assert !StillLongEnough(cfg, fs, last, s);
    }
  }

  lemma OneStillRun(cfg: Config, fs: seq<Feedback>, r: int, s: int, n: nat)
    requires n <= |fs| && StillRun(cfg, fs, r, n) && StillRun(cfg, fs, s, n)
    ensures r == s
  {
    hide StillRun;
    if r < s {
      NoLaterStillRun(cfg, fs, r, s, n);
    } else if s < r {
      NoLaterStillRun(cfg, fs, s, r, n);
    }
  }

  const DEFAULT := Config(100, 200, 0.05, 100, false)

  /** With repeated time stamps the report is not to be trusted: two readings at the same time,
      a radian apart, leave the default evaluator locked. */
  lemma RepeatedTimeHidesMotion()
    ensures var fs := [Feedback(0.0, 0.0, true, 0), Feedback(0.0, 0.0, true, 1000 * MS),
                       Feedback(1.0, 0.0, true, 1000 * MS)];
            LockedAt(DEFAULT, fs, 1100 * MS) && !DriftWithin(DEFAULT, fs, 1, 2)
  {
    var fs := [Feedback(0.0, 0.0, true, 0), Feedback(0.0, 0.0, true, 1000 * MS),
               Feedback(1.0, 0.0, true, 1000 * MS)];
    assert Normalize(0.0) == 0.0 by {
      NormalizeOfTurns(0.0, 0);
    }
    assert RateAt(fs, 0) == None && RateAt(fs, 1) == Some(0.0) && RateAt(fs, 2) == Some(0.0);
    assert StillLongEnough(DEFAULT, fs, 1100 * MS, 1);
    StepDriftIff(DEFAULT, fs, 2);
    assert Turns(1.0) == 0;
  }

  /** One still reading and silence are enough: the default evaluator reports locked 100 ms after
      the only reading that was ever found still. */
  lemma SilenceLocks()
    ensures var fs := [Feedback(0.0, 0.0, true, 0), Feedback(0.0, 0.0, true, 10 * MS)];
            && LockedAt(DEFAULT, fs, 110 * MS) && !LockedAt(DEFAULT, fs, fs[1].now)
            && StillLongEnough(DEFAULT, fs, 110 * MS, 1)
  {
    var fs := [Feedback(0.0, 0.0, true, 0), Feedback(0.0, 0.0, true, 10 * MS)];
    assert Normalize(0.0) == 0.0 by {
      NormalizeOfTurns(0.0, 0);
    }
    assert RateAt(fs, 0) == None && RateAt(fs, 1) == Some(0.0);
    assert StillLongEnough(DEFAULT, fs, 110 * MS, 1);
    ReadingsCoverDwellIff(DEFAULT, fs, 110 * MS, 1);
  }

  /** A request for an authority that has no name is acknowledged like any other: with a healthy
      reading and no lock asked for, whatever byte it carries is reported, BODY_YAW_FOLLOW alone
      excepted. */
  lemma AnyByteIsAcknowledged(authority: Authority)
    ensures var es := [Asked(Request(1, authority, false)), Sensed(Feedback(0.0, 0.0, true, 0))];
            var o := Status(DEFAULT, After(DEFAULT, es).requested, After(DEFAULT, es).measured, 0);
            o.authority == authority <==> authority != BODY_YAW_FOLLOW
  {
    hide AfterFeedback, Status, HealthyAt, FirstLargest;
    var es := [Asked(Request(1, authority, false)), Sensed(Feedback(0.0, 0.0, true, 0))];
    OneOfEach(es[0].request, es[1].feedback, es);
    var i := StatusRefinesHistory(DEFAULT, es, 0);
    FreshNow(Readings(es));
    OnlyRequest(Requests(es), i);
  }

  lemma OneOfEach(r: Request, f: Feedback, es: seq<Event>)
    requires es == [Asked(r), Sensed(f)]
    ensures Requests(es) == [r] && Readings(es) == [f]
  {
    var front := es[..1];
    assert front == [Asked(r)] && front[..0] == [];
    assert Requests(front) == [r] && Readings(front) == [];
  }

  lemma FreshNow(fs: seq<Feedback>)
    requires fs == [Feedback(0.0, 0.0, true, 0)]
    ensures HealthyAt(DEFAULT, fs, 0)
  {
  }

  lemma OnlyRequest(rs: seq<Request>, i: nat)
    requires |rs| == 1 && FirstLargest(rs, 1, i)
    ensures i == 0
  {
  }
}
