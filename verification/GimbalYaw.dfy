/** The evaluator that decides which yaw authority may be acknowledged and whether the gimbal
    stands still. It keeps a few fields up to date and never sees its history again. */
module GimbalYaw {
  import opened Clock
  import opened Numbers

  /** An authority is a byte. Three values have names; a request may carry any of them, because the
      node casts the byte of the message without looking at it. */
  type Authority = bv8

  const HOLD_SAFE_STOP: Authority := 0
  const GIMBAL_COMPENSATED: Authority := 1
  const BODY_YAW_FOLLOW: Authority := 2

  datatype Reason =
    AckGranted | NoRequest | FeedbackStale | TfUnhealthy | BodyYawFollowForbidden | NotLocked

  /** Time-outs and the dwell are in milliseconds, the rate in radians per second. */
  datatype Config = Config(
    jointTimeout: int, tfTimeout: int, lockRate: real, lockDwell: int, allowBodyYawFollow: bool)

  datatype Output = Output(
    sequence: Word64, authority: Authority, locked: bool, tfHealthy: bool,
    gimbalYaw: real, bodyYaw: real, fakeYaw: real, reason: Reason)

  // ------------------------------------------------------------------ angles

  /** The number of full turns to take off an angle. */
  function Turns(x: real): (k: int) {
    -((PI - x) / (TWO_PI)).Floor
  }

  /** `normalizeAngle`: the same angle in (-pi, pi]. */
  function Normalize(x: real): (y: real)
    ensures -PI < y <= PI
    ensures y == x - TWO_PI * Turns(x) as real
  {
    TurnsFit(x);
    x - TWO_PI * Turns(x) as real
  }

  lemma TurnsFit(x: real)
    ensures -PI < x - TWO_PI * Turns(x) as real <= PI
  {
    var q := (PI - x) / (TWO_PI);
    assert q - 1.0 < q.Floor as real <= q;
    assert TWO_PI * q == PI - x;
  }

  /** It is the only one there that differs by full turns. */
  lemma NormalizeIff(x: real, y: real)
    ensures y == Normalize(x)
       <==> && -3.141592653589793 < y <= 3.141592653589793
            && exists k: int :: DiffersBy(x, y, k)
  {
    assert DiffersBy(x, Normalize(x), Turns(x));
    forall k: int | DiffersBy(x, y, k) && -PI < y <= PI ensures y == Normalize(x) {
      var d := k - Turns(x);
      assert Normalize(x) - y == TWO_PI * d as real;
      assert -1 < d < 1;
    }
  }

  /** The angles `x` and `y` are `k` full turns apart. */
  predicate DiffersBy(x: real, y: real, k: int) {
    x - y == 6.283185307179586 * k as real
  }

  // ------------------------------------------------------------------ state

  datatype Request = Request(sequence: Word64, authority: Authority, requireLock: bool)

  datatype Feedback = Feedback(yaw: real, body: real, tfOk: bool, now: Time)

  datatype RequestState = RequestState(
    has: bool, sequence: Word64, authority: Authority, requireLock: bool)

  datatype FeedbackState = FeedbackState(
    has: bool, tfOk: bool, yaw: real, body: real, hasFake: bool, fake: real, time: Time,
    hasRate: bool, rate: real, still: bool, stillSince: Time)

  const NO_REQUEST := RequestState(false, 0, HOLD_SAFE_STOP, false)
  const NO_FEEDBACK := FeedbackState(false, false, 0.0, 0.0, false, 0.0, 0, false, 0.0, false, 0)

  const SECOND := 1_000_000_000.0

  predicate AcceptsRequest(s: RequestState, r: Request) {
    s.has ==> s.sequence < r.sequence
  }

  function AfterRequest(s: RequestState, r: Request): (t: RequestState) {
    if AcceptsRequest(s, r) then RequestState(true, r.sequence, r.authority, r.requireLock) else s
  }

  /** The yaw rate between two readings. */
  function RateBetween(yaw: real, time: Time, f: Feedback): (rate: real)
    requires f.now > time
  {
    Normalize(f.yaw - yaw) / ((f.now - time) as real / SECOND)
  }

  function AfterFeedback(cfg: Config, s: FeedbackState, f: Feedback): (t: FeedbackState) {
    var measured := s.has && f.now > s.time;
    var rate := if measured then RateBetween(s.yaw, s.time, f) else s.rate;
    var hasRate := measured || s.hasRate;
    var still := hasRate && Abs(rate) <= cfg.lockRate;
    FeedbackState(true, f.tfOk, f.yaw, f.body, s.hasFake || f.tfOk,
                  if !s.hasFake && f.tfOk then f.yaw else s.fake, f.now, hasRate, rate, still,
                  if still && !s.still then f.now else s.stillSince)
  }

  // ------------------------------------------------------------- evaluation

  predicate Healthy(cfg: Config, s: FeedbackState, now: Time) {
    && s.has && ToMs(now - s.time) <= cfg.jointTimeout
    && s.tfOk && ToMs(now - s.time) <= cfg.tfTimeout && s.hasFake
  }

  predicate Locked(cfg: Config, s: FeedbackState, now: Time) {
    Healthy(cfg, s, now) && s.still && ToMs(now - s.stillSince) >= cfg.lockDwell
  }

  function Verdict(cfg: Config, r: RequestState, s: FeedbackState, now: Time): (v: Reason) {
    if !(s.has && ToMs(now - s.time) <= cfg.jointTimeout) then FeedbackStale
    else if !Healthy(cfg, s, now) then TfUnhealthy
    else if !r.has then NoRequest
    else if r.authority == BODY_YAW_FOLLOW && !cfg.allowBodyYawFollow then BodyYawFollowForbidden
    else if r.requireLock && !Locked(cfg, s, now) then NotLocked
    else AckGranted
  }

  function Status(cfg: Config, r: RequestState, s: FeedbackState, now: Time): (o: Output) {
    var verdict := Verdict(cfg, r, s, now);
    Output(if r.has then r.sequence else 0,
           if verdict == AckGranted then r.authority else HOLD_SAFE_STOP,
           Locked(cfg, s, now), Healthy(cfg, s, now), s.yaw, s.body, s.fake, verdict)
  }

  /** All methods run under one lock of the caller. */
  class GimbalYawStatusEvaluator {
    var config: Config
    var hasRequest: bool
    var requestSequence: Word64
    var requestedAuthority: Authority
    var requireLock: bool
    var hasFeedback: bool
    var tfOk: bool
    var gimbalYaw: real
    var bodyYaw: real
    var hasFakeYaw: bool
    var fakeYaw: real
    var feedbackTime: Time
    var hasYawRate: bool
    var yawRate: real
    var stillSinceValid: bool
    var stillSince: Time

    ghost function Requested(): (s: RequestState)
      reads this
    {
      RequestState(hasRequest, requestSequence, requestedAuthority, requireLock)
    }

    ghost function Measured(): (s: FeedbackState)
      reads this
    {
      FeedbackState(hasFeedback, tfOk, gimbalYaw, bodyYaw, hasFakeYaw, fakeYaw, feedbackTime,
                    hasYawRate, yawRate, stillSinceValid, stillSince)
    }

    constructor (cfg: Config)
      ensures config == cfg && Requested() == NO_REQUEST && Measured() == NO_FEEDBACK
    {
      config := cfg;
      hasRequest, requestSequence, requestedAuthority, requireLock := false, 0, HOLD_SAFE_STOP, false;
      hasFeedback, tfOk, gimbalYaw, bodyYaw, hasFakeYaw, fakeYaw := false, false, 0.0, 0.0, false, 0.0;
      feedbackTime, hasYawRate, yawRate, stillSinceValid, stillSince := 0, false, 0.0, false, 0;
    }

    method OnRequest(sequence: Word64, authority: Authority, lock: bool) returns (accepted: bool)
      modifies this
      ensures config == old(config) && Measured() == old(Measured())
      ensures accepted <==> AcceptsRequest(old(Requested()), Request(sequence, authority, lock))
      ensures Requested() == AfterRequest(old(Requested()), Request(sequence, authority, lock))
    {
      if hasRequest && sequence <= requestSequence {
        return false;
      }
      hasRequest := true;
      requestSequence := sequence;
      requestedAuthority := authority;
      requireLock := lock;
      return true;
    }

    /** The first half of `onFeedback`: the rate against the previous reading. */
    method UpdateRate(f: Feedback)
      modifies this
      ensures config == old(config) && Requested() == old(Requested())
      ensures var s := old(Measured());
              var measured := s.has && f.now > s.time;
              Measured() == s.(
                hasRate := measured || s.hasRate,
                rate := if measured then RateBetween(s.yaw, s.time, f) else s.rate)
    {
      if hasFeedback {
        var dt := (f.now - feedbackTime) as real / SECOND;
        if dt > 0.0 {
          var delta := Normalize(f.yaw - gimbalYaw);
          yawRate := delta / dt;
          hasYawRate := true;
        }
      }
    }

    /** Its middle part: the reading itself, and the reference yaw if there is none yet. */
    method Record(f: Feedback)
      modifies this
      ensures config == old(config) && Requested() == old(Requested())
      ensures var s := old(Measured());
              Measured() == s.(
                hasFake := s.hasFake || f.tfOk,
                fake := if !s.hasFake && f.tfOk then f.yaw else s.fake,
                yaw := f.yaw, body := f.body, tfOk := f.tfOk, time := f.now, has := true)
    {
      if !hasFakeYaw && f.tfOk {
        fakeYaw := f.yaw;
        hasFakeYaw := true;
      }
      gimbalYaw := f.yaw;
      bodyYaw := f.body;
      tfOk := f.tfOk;
      feedbackTime := f.now;
      hasFeedback := true;
    }

    /** The last part of `onFeedback`: since when the rate has been within the bound. */
    method UpdateStill(now: Time)
      modifies this
      ensures config == old(config) && Requested() == old(Requested())
      ensures var s := old(Measured());
              var still := s.hasRate && Abs(s.rate) <= config.lockRate;
              Measured() == s.(
                still := still, stillSince := if still && !s.still then now else s.stillSince)
    {
      hide Abs;
      if hasYawRate && Abs(yawRate) <= config.lockRate {
        if !stillSinceValid {
          stillSince := now;
          stillSinceValid := true;
        }
      } else {
        stillSinceValid := false;
      }
    }

    method OnFeedback(yaw: real, body: real, ok: bool, now: Time)
      modifies this
      ensures config == old(config) && Requested() == old(Requested())
      ensures Measured() == AfterFeedback(config, old(Measured()), Feedback(yaw, body, ok, now))
    {
      hide RateBetween, Abs;
      UpdateRate(Feedback(yaw, body, ok, now));
      Record(Feedback(yaw, body, ok, now));
      UpdateStill(now);
    }

    method Evaluate(now: Time) returns (o: Output)
      ensures o == Status(config, Requested(), Measured(), now)
    {
      var sequence := if hasRequest then requestSequence else 0;
      var feedbackFresh := hasFeedback && ToMs(now - feedbackTime) <= config.jointTimeout;
      var tfFresh := tfOk && hasFeedback && ToMs(now - feedbackTime) <= config.tfTimeout;
      var tfHealthy := feedbackFresh && tfFresh && hasFakeYaw;
      var locked := tfHealthy && stillSinceValid && ToMs(now - stillSince) >= config.lockDwell;
      o := Output(sequence, HOLD_SAFE_STOP, locked, tfHealthy, gimbalYaw, bodyYaw, fakeYaw, NoRequest);
      if !feedbackFresh {
        return o.(reason := FeedbackStale);
      }
      if !o.tfHealthy {
        return o.(reason := TfUnhealthy);
      }
      if !hasRequest {
        return o.(reason := NoRequest);
      }
      if requestedAuthority == BODY_YAW_FOLLOW && !config.allowBodyYawFollow {
        return o.(reason := BodyYawFollowForbidden);
      }
      if requireLock && !o.locked {
        return o.(reason := NotLocked);
      }
      return o.(authority := requestedAuthority, reason := AckGranted);
    }
  }
}
