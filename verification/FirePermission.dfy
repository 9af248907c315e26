/** Who may order firing: the gimbal thread takes a command, then reads two flags that other
    threads store outside any lock, and then sends. Every access is a step of its own. */
module FirePermission {
  import opened Checksums
  import opened Clock
  import opened Framing
  import opened GimbalSender
  import opened History
  import opened Senders

  /** Where the thread is in its round: it has taken a command that asks for fire, it has also
      found the link up, or it knows whether firing is permitted. */
  datatype Phase =
    | Idle
    | Taken(c: Command)
    | LinkSeen(c: Command)
    | Decided(c: Command, permitted: bool)

  datatype State = State(latest: Command, usbOk: bool, stopActive: bool, phase: Phase)

  datatype Event =
    | Arrives(data: seq<Number>, time: Time)
    /** `setSerialLinkState` exchanges the link flag. */
    | LinkStored(up: bool)
    /** `emergencyStopCallback` stores the stop flag, before it takes the lock. */
    | StopStored(active: bool)
    /** The thread takes the latest command, if it is fresh and usable. */
    | Takes(now: Time)
    | ReadsLink
    | ReadsStop
    | Sends

  const START := State(Command([], 0), false, false, Idle)

  predicate WantsFire(c: Command) {
    Usable(c) && c.data[0].byte == MODE_TRACK_AND_FIRE
  }

  /** `inhibit` says whether an emergency stop inhibits firing. Permission is asked for only if the
      command wants to fire. */
  function NextPhase(inhibit: bool, s: State, e: Event): (p: Phase) {
    match (s.phase, e)
    case (Idle, Takes(now)) =>
      if IsFresh(s.latest, now) && Usable(s.latest) then
        if WantsFire(s.latest) then Taken(s.latest) else Decided(s.latest, false)
      else Idle
    case (Taken(c), ReadsLink) => if s.usbOk then LinkSeen(c) else Decided(c, false)
    case (LinkSeen(c), ReadsStop) => Decided(c, !inhibit || !s.stopActive)
    case (Decided(_, _), Sends) => Idle
    case _ => s.phase
  }

  function Step(inhibit: bool, s: State, e: Event): (t: State) {
    State(if e.Arrives? then Command(e.data, e.time) else s.latest,
          if e.LinkStored? then e.up else s.usbOk,
          if e.StopStored? then e.active else s.stopActive,
          NextPhase(inhibit, s, e))
  }

  function After(inhibit: bool, es: seq<Event>, n: nat): (s: State)
    requires n <= |es|
    decreases n
  {
    if n == 0 then START else Step(inhibit, After(inhibit, es, n - 1), es[n - 1])
  }

  /** Event `n` sends a frame that orders firing. */
  predicate FiresAt(inhibit: bool, es: seq<Event>, n: nat)
    requires n < |es|
  {
    var p := After(inhibit, es, n).phase;
    && es[n].Sends? && p.Decided? && Usable(p.c)
    && Downgraded(p.c.data[0].byte, p.permitted) == MODE_TRACK_AND_FIRE
  }

  // --------------------------------------------------------------- the round so far

  /** Command `c` arrived as event `i`, and nothing arrived between then and event `n`. */
  predicate ArrivedLast(es: seq<Event>, c: Command, i: int, n: nat)
    requires n <= |es|
  {
    && 0 <= i < n && es[i] == Arrives(c.data, c.time)
    && forall j | i < j < n :: !es[j].Arrives?
  }

  /** The steps of a round: a command that arrived as event `a`, was taken at `k`, the link read
      at `l` and the stop flag at `r`. */
  datatype Round = Round(a: nat, k: nat, l: nat, r: nat)

  predicate TakenAt(inhibit: bool, es: seq<Event>, n: nat, c: Command, q: Round)
    requires n <= |es|
  {
    && q.k < n && es[q.k].Takes? && IsFresh(c, es[q.k].now) && Usable(c)
    && ArrivedLast(es, c, q.a, q.k)
    && forall i | q.k < i <= n :: After(inhibit, es, i).phase != Idle
  }

  predicate LinkSeenAt(inhibit: bool, es: seq<Event>, n: nat, q: Round)
    requires n <= |es|
  {
    q.k < q.l < n && es[q.l].ReadsLink? && After(inhibit, es, q.l).usbOk
  }

  predicate StopReadAt(inhibit: bool, es: seq<Event>, n: nat, q: Round)
    requires n <= |es|
  {
    && q.l < q.r < n && es[q.r].ReadsStop?
    && (inhibit ==> !After(inhibit, es, q.r).stopActive)
  }

  /** What the phase says about the past. */
  predicate Explained(inhibit: bool, es: seq<Event>, n: nat, p: Phase, q: Round)
    requires n <= |es|
  {
    match p
    case Idle => true
    case Taken(c) => TakenAt(inhibit, es, n, c, q) && WantsFire(c)
    case LinkSeen(c) =>
      TakenAt(inhibit, es, n, c, q) && WantsFire(c) && LinkSeenAt(inhibit, es, n, q)
    case Decided(c, permitted) =>
      && TakenAt(inhibit, es, n, c, q)
      && (permitted ==> LinkSeenAt(inhibit, es, n, q) && StopReadAt(inhibit, es, n, q))
  }

  lemma {:induction false} LatestArrived(inhibit: bool, es: seq<Event>, n: nat) returns (i: nat)
    requires n <= |es| && After(inhibit, es, n).latest.time != 0
    ensures ArrivedLast(es, After(inhibit, es, n).latest, i, n)
    decreases n
  {
    hide NextPhase;
    if es[n - 1].Arrives? {
      i := n - 1;
    } else {
      i := LatestArrived(inhibit, es, n - 1);
    }
  }

  lemma StaysTaken(inhibit: bool, es: seq<Event>, n: nat, c: Command, q: Round)
    requires n < |es| && TakenAt(inhibit, es, n, c, q) && After(inhibit, es, n + 1).phase != Idle
    ensures TakenAt(inhibit, es, n + 1, c, q)
  {
    hide Usable, IsFresh, ArrivedLast, After;
  }

  lemma {:induction false} PhaseIsHistory(inhibit: bool, es: seq<Event>, n: nat) returns (q: Round)
    requires n <= |es|
    ensures Explained(inhibit, es, n, After(inhibit, es, n).phase, q)
    decreases n
  {
    hide Usable, WantsFire, IsFresh, TakenAt, LinkSeenAt, StopReadAt;
    q := Round(0, 0, 0, 0);
    if n > 0 {
      q := PhaseIsHistory(inhibit, es, n - 1);
      q := NextRound(inhibit, es, n, q);
    }
  }

  lemma NextRound(inhibit: bool, es: seq<Event>, n: nat, q: Round) returns (q': Round)
    requires 0 < n <= |es|
    requires Explained(inhibit, es, n - 1, After(inhibit, es, n - 1).phase, q)
    ensures Explained(inhibit, es, n, After(inhibit, es, n).phase, q')
  {
    hide Usable, IsFresh, ArrivedLast;
    var s, e := After(inhibit, es, n - 1), es[n - 1];
    q' := q;
    if s.phase == Idle {
      if e.Takes? && After(inhibit, es, n).phase != Idle {
        var a := ArrivalOfTaken(inhibit, es, n - 1, e.now);
        q' := Round(a, n - 1, 0, 0);
      }
    } else if After(inhibit, es, n).phase != Idle {
      StaysTaken(inhibit, es, n - 1, s.phase.c, q);
      if s.phase.Taken? && e.ReadsLink? {
        q' := q.(l := n - 1);
      } else if s.phase.LinkSeen? && e.ReadsStop? {
        q' := q.(r := n - 1);
      }
    }
  }

  lemma ArrivalOfTaken(inhibit: bool, es: seq<Event>, k: nat, now: Time) returns (a: nat)
    requires k <= |es| && IsFresh(After(inhibit, es, k).latest, now)
    ensures ArrivedLast(es, After(inhibit, es, k).latest, a, k)
  {
    a := LatestArrived(inhibit, es, k);
  }

  // ------------------------------------------------------------------- who may fire

  /** In any run, a frame that orders firing is for a command that asked for it, was the last to
      arrive when it was taken and was then less than 100 ms old; the link flag was up when it was
      read after that, and, if an emergency stop inhibits firing, the stop flag was down when it
      was read after that again. */
  lemma FireOnlyWhenAskedAndPermitted(inhibit: bool, es: seq<Event>, n: nat, stamp: Word32, f: Bytes)
    returns (q: Round)
    requires n < |es| && es[n].Sends? && After(inhibit, es, n).phase.Decided?
    requires var p := After(inhibit, es, n).phase;
             Usable(p.c) && GimbalFrame(p.c, p.permitted, stamp, f)
    requires f[8] == MODE_TRACK_AND_FIRE
    ensures FiresAt(inhibit, es, n)
    ensures var c := After(inhibit, es, n).phase.c;
            && q.a < q.k < q.l < q.r < n && ArrivedLast(es, c, q.a, q.k)
            && c.data[0].byte == MODE_TRACK_AND_FIRE
            && es[q.k].Takes? && es[q.k].now - es[q.a].time < TIMEOUT_MS * MS
    ensures es[q.l].ReadsLink? && After(inhibit, es, q.l).usbOk
    ensures es[q.r].ReadsStop? && (inhibit ==> !After(inhibit, es, q.r).stopActive)
  {
    hide Valid8, Valid16, Singles, After;
    q := PhaseIsHistory(inhibit, es, n);
  }

  lemma {:induction false} StopStays(inhibit: bool, es: seq<Event>, j: nat, n: nat)
    requires j < n <= |es| && es[j] == StopStored(true)
    requires forall i | j < i < n :: es[i] != StopStored(false)
    ensures After(inhibit, es, n).stopActive
    decreases n
  {
    hide NextPhase;
    if j < n - 1 {
      StopStays(inhibit, es, j, n - 1);
    }
  }

  lemma RoundOfFire(inhibit: bool, es: seq<Event>, n: nat) returns (q: Round)
    requires n < |es| && FiresAt(inhibit, es, n)
    ensures TakenAt(inhibit, es, n, After(inhibit, es, n).phase.c, q)
    ensures LinkSeenAt(inhibit, es, n, q) && StopReadAt(inhibit, es, n, q)
  {
    hide After, TakenAt, LinkSeenAt, StopReadAt;
    q := PhaseIsHistory(inhibit, es, n);
  }

  /** Once an emergency stop is stored, and until it is released, a frame that orders firing can
      only come from a round that had read the flag before: nothing that is taken after the stop
      is fired. */
  lemma StopInhibitsFire(es: seq<Event>, j: nat, n: nat) returns (q: Round)
    requires j < n < |es| && es[j] == StopStored(true) && FiresAt(true, es, n)
    requires forall i | j < i < n :: es[i] != StopStored(false)
    ensures TakenAt(true, es, n, After(true, es, n).phase.c, q) && StopReadAt(true, es, n, q)
    ensures q.k < q.r < j
  {
    hide After, FiresAt;
    q := RoundOfFire(true, es, n);
    if j < q.r {
      StopStays(true, es, j, q.r);
    }
  }

  lemma SendEndsRound(inhibit: bool, es: seq<Event>, n: nat)
    requires n < |es| && FiresAt(inhibit, es, n)
    ensures After(inhibit, es, n + 1).phase == Idle
  {
  }

  /** So after an emergency stop at most one more frame orders firing until it is released. */
  lemma AtMostOneFireAfterStop(es: seq<Event>, j: nat, m: nat, n: nat)
    requires j < m < n < |es| && es[j] == StopStored(true) && FiresAt(true, es, m)
    requires forall i | j < i < n :: es[i] != StopStored(false)
    ensures !FiresAt(true, es, n)
  {
    hide After, FiresAt;
    if FiresAt(true, es, n) {
      var q := StopInhibitsFire(es, j, n);
      SendEndsRound(true, es, m);
    }
  }

  /** A command that asks for fire. */
  function FireCommand(): (data: seq<Number>) {
    seq(7, _ => Number(true, MODE_TRACK_AND_FIRE, [0, 0, 0, 0]))
  }

  /** The one frame does occur: the stop is stored just after the flag has been read. */
  lemma OneFireInFlight()
    ensures var es := [LinkStored(true), Arrives(FireCommand(), 1), Takes(2), ReadsLink, ReadsStop,
                       StopStored(true), Sends];
            FiresAt(true, es, 6)
  {
    var es := [LinkStored(true), Arrives(FireCommand(), 1), Takes(2), ReadsLink, ReadsStop,
               StopStored(true), Sends];
    var a, b, c := After(true, es, 1), After(true, es, 2), After(true, es, 3);
    var d, e := After(true, es, 4), After(true, es, 5);
    assert After(true, es, 0) == START && a == Step(true, START, es[0]);
    assert b == Step(true, a, es[1]) && c == Step(true, b, es[2]) && c.phase.Taken?;
    assert d == Step(true, c, es[3]) && e == Step(true, d, es[4]);
    assert After(true, es, 6) == Step(true, e, es[5]);
  }

  // --------------------------------------------------------------- what a round comes to

  /** The step that takes the thread on from a phase. */
  predicate Advances(p: Phase, e: Event) {
    match p
    case Idle => e.Takes?
    case Taken(_) => e.ReadsLink?
    case LinkSeen(_) => e.ReadsStop?
    case Decided(_, _) => e.Sends?
  }

  /** Nothing but that step does. */
  lemma {:induction false} StaysInPhase(inhibit: bool, es: seq<Event>, k: nat, n: nat)
    requires k <= n <= |es|
    requires forall i | k <= i < n :: !Advances(After(inhibit, es, k).phase, es[i])
    ensures After(inhibit, es, n).phase == After(inhibit, es, k).phase
    decreases n
  {
    if k < n {
      StaysInPhase(inhibit, es, k, n - 1);
    }
  }

  /** The thread takes the latest command as event `k`: it has arrived less than 100 ms ago and is
      usable, and the round goes on at least to event `n`. */
  predicate Begins(inhibit: bool, es: seq<Event>, k: nat, n: nat) {
    && k < n <= |es| && After(inhibit, es, k).phase == Idle && es[k].Takes?
    && Sendable(After(inhibit, es, k).latest, es[k].now)
    && forall i | k < i < n :: !es[i].Sends?
  }

  lemma SendableIsTaken(c: Command, now: Time)
    ensures Sendable(c, now) <==> IsFresh(c, now) && Usable(c)
  {
  }

  lemma FirstPhase(inhibit: bool, es: seq<Event>, k: nat, n: nat)
    requires Begins(inhibit, es, k, n)
    ensures var c := After(inhibit, es, k).latest;
            After(inhibit, es, k + 1).phase == if c.data[0].byte == 2 then Taken(c)
                                               else Decided(c, false)
  {
    SendableIsTaken(After(inhibit, es, k).latest, es[k].now);
  }

  /** A command that does not ask for fire is ready to be sent at once. */
  lemma PlainCommandIsDecided(inhibit: bool, es: seq<Event>, k: nat, n: nat)
    requires Begins(inhibit, es, k, n) && After(inhibit, es, k).latest.data[0].byte != 2
    ensures After(inhibit, es, n).phase == Decided(After(inhibit, es, k).latest, false)
  {
    hide After;
    FirstPhase(inhibit, es, k, n);
    StaysInPhase(inhibit, es, k + 1, n);
  }

  lemma LinkIsRead(inhibit: bool, es: seq<Event>, k: nat, l: nat, n: nat)
    requires Begins(inhibit, es, k, n) && After(inhibit, es, k).latest.data[0].byte == 2
    requires k < l < n && es[l].ReadsLink? && forall i | k < i < l :: !es[i].ReadsLink?
    ensures var c := After(inhibit, es, k).latest;
            After(inhibit, es, l + 1).phase == if After(inhibit, es, l).usbOk then LinkSeen(c)
                                               else Decided(c, false)
  {
    FirstPhase(inhibit, es, k, n);
    StaysInPhase(inhibit, es, k + 1, l);
  }

  /** A command that asks for fire is ready to be sent downgraded once the link is found down. */
  lemma NoFireWithoutLink(inhibit: bool, es: seq<Event>, k: nat, l: nat, n: nat)
    requires Begins(inhibit, es, k, n) && After(inhibit, es, k).latest.data[0].byte == 2
    requires k < l < n && es[l].ReadsLink? && forall i | k < i < l :: !es[i].ReadsLink?
    requires !After(inhibit, es, l).usbOk
    ensures After(inhibit, es, n).phase == Decided(After(inhibit, es, k).latest, false)
  {
    hide After, Begins;
    LinkIsRead(inhibit, es, k, l, n);
    BeginsWithoutSending(inhibit, es, k, n);
    StaysInPhase(inhibit, es, l + 1, n);
  }

  lemma BeginsWithoutSending(inhibit: bool, es: seq<Event>, k: nat, n: nat)
    requires Begins(inhibit, es, k, n)
    ensures n <= |es| && forall i | k < i < n :: !es[i].Sends?
  {
  }

  /** A round fires exactly if the link flag was up when it was first read after the command was
      taken, and, where an emergency stop inhibits firing, the stop flag was down when it was first
      read after that, whatever the other threads have stored before, between and since. */
  lemma RoundFiresIff(inhibit: bool, es: seq<Event>, k: nat, l: nat, r: nat, n: nat)
    requires Begins(inhibit, es, k, n) && After(inhibit, es, k).latest.data[0].byte == 2
    requires k < l < n && es[l].ReadsLink? && forall i | k < i < l :: !es[i].ReadsLink?
    requires l < r < n && es[r].ReadsStop? && forall i | l < i < r :: !es[i].ReadsStop?
    requires n < |es| && es[n].Sends?
    ensures FiresAt(inhibit, es, n)
       <==> After(inhibit, es, l).usbOk && (inhibit ==> !After(inhibit, es, r).stopActive)
    ensures After(inhibit, es, n).phase.Decided?
         && After(inhibit, es, n).phase.c == After(inhibit, es, k).latest
  {
    hide After, Begins, FiresAt;
    var c := After(inhibit, es, k).latest;
    BeginsWithoutSending(inhibit, es, k, n);
    if After(inhibit, es, l).usbOk {
      LinkIsRead(inhibit, es, k, l, n);
      StaysInPhase(inhibit, es, l + 1, r);
      StopIsRead(inhibit, es, r, c);
      StaysInPhase(inhibit, es, r + 1, n);
    } else {
      NoFireWithoutLink(inhibit, es, k, l, n);
    }
    FiresIfPermitted(inhibit, es, k, n, c);
  }

  lemma StopIsRead(inhibit: bool, es: seq<Event>, r: nat, c: Command)
    requires r < |es| && es[r].ReadsStop? && After(inhibit, es, r).phase == LinkSeen(c)
    ensures After(inhibit, es, r + 1).phase
         == Decided(c, !(inhibit && After(inhibit, es, r).stopActive))
  {
  }

  lemma FiresIfPermitted(inhibit: bool, es: seq<Event>, k: nat, n: nat, c: Command)
    requires Begins(inhibit, es, k, n) && c == After(inhibit, es, k).latest && c.data[0].byte == 2
    requires n < |es| && es[n].Sends?
    requires After(inhibit, es, n).phase.Decided? && After(inhibit, es, n).phase.c == c
    ensures FiresAt(inhibit, es, n) <==> After(inhibit, es, n).phase.permitted
  {
    hide After;
    SendableIsTaken(c, es[k].now);
  }

  // --------------------------------------------------------------- the two flags

  function Stored(es: seq<Event>, e: Event): (m: Moments) {
    i => 0 <= i < |es| && es[i] == e
  }

  /** Each flag is what was last stored in it. */
  lemma {:induction false} FlagsAreLastStored(inhibit: bool, es: seq<Event>, n: nat)
    requires n <= |es|
    ensures After(inhibit, es, n).usbOk
       <==> Since(Stored(es, LinkStored(true)), Stored(es, LinkStored(false)), n)
    ensures After(inhibit, es, n).stopActive
       <==> Since(Stored(es, StopStored(true)), Stored(es, StopStored(false)), n)
    decreases n
  {
    hide Since, NextPhase;
    if n == 0 {
      NothingSince(Stored(es, LinkStored(true)), Stored(es, LinkStored(false)));
      NothingSince(Stored(es, StopStored(true)), Stored(es, StopStored(false)));
    } else {
      FlagsAreLastStored(inhibit, es, n - 1);
      SinceStep(Stored(es, LinkStored(true)), Stored(es, LinkStored(false)), n);
      SinceStep(Stored(es, StopStored(true)), Stored(es, StopStored(false)), n);
    }
  }
}
