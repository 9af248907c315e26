/** Which runs of the outlet the threads of the node can take: how changes of the link state are
    made up, and when the send thread takes snapshots. */
module OutletRuns {
  import opened Clock
  import opened Gate
  import opened Outlet

  predicate IsLinkEvent(e: Event) {
    e.LinkExchange? || e.LinkLocked?
  }

  /** The position of the last link event before `n`, or -1. */
  function LastLink(es: seq<Event>, n: nat): (i: int)
    requires n <= |es|
    ensures -1 <= i < n && (i >= 0 ==> IsLinkEvent(es[i]))
    decreases n
  {
    if n == 0 then -1 else if IsLinkEvent(es[n - 1]) then n - 1 else LastLink(es, n - 1)
  }

  predicate InExchange(es: seq<Event>, n: nat)
    requires n <= |es|
  {
    LastLink(es, n) >= 0 && es[LastLink(es, n)].LinkExchange?
  }

  /** Calls that change the link state do not overlap: every exchange is followed, among the
      link events, by the locked section of the same call. */
  predicate Orderly(es: seq<Event>) {
    forall i | 0 <= i < |es| ::
      && (es[i].LinkExchange? ==> !InExchange(es, i))
      && (es[i].LinkLocked? ==>
            InExchange(es, i) && es[LastLink(es, i)] == LinkExchange(es[i].up))
  }

  /** The direction of the last exchange among the first `n` events; none counts as down. */
  predicate LastExchanged(es: seq<Event>, n: nat)
    requires n <= |es|
    decreases n
  {
    n > 0 && if es[n - 1].LinkExchange? then es[n - 1].up else LastExchanged(es, n - 1)
  }

  /** The direction of the last locked section among the first `n` events. */
  predicate LastLocked(es: seq<Event>, n: nat)
    requires n <= |es|
    decreases n
  {
    n > 0 && if es[n - 1].LinkLocked? then es[n - 1].up else LastLocked(es, n - 1)
  }

  function Count(es: seq<Event>, e: Event, n: nat): (c: nat)
    requires n <= |es|
    decreases n
  {
    if n == 0 then 0 else Count(es, e, n - 1) + if es[n - 1] == e then 1 else 0
  }

  /** Every locked section belongs to a call that has made its exchange before, whether or not
      calls overlap. */
  predicate CallsMatch(es: seq<Event>) {
    forall n, up | 0 <= n <= |es| ::
      Count(es, LinkLocked(up), n) <= Count(es, LinkExchange(up), n)
  }

  predicate Started(es: seq<Event>, n: nat)
    requires n <= |es|
  {
    exists i | 0 <= i < n :: es[i].SenderStarts?
  }

  predicate Timed(e: Event) {
    e.CmdVel? || e.Tick?
  }

  /** The steady clock never goes back. */
  predicate ClockAdvances(es: seq<Event>) {
    forall i, j | 0 <= i < j < |es| && Timed(es[i]) && Timed(es[j]) :: es[i].now <= es[j].now
  }

  /** A run in which link changes do not overlap, snapshots are taken only once the send thread has
      started and while the flag it consults is up, and the clock never goes back. */
  predicate Proper(es: seq<Event>) {
    && Orderly(es) && ClockAdvances(es)
    && forall i | 0 <= i < |es| && es[i].Tick? :: Started(es, i) && LastExchanged(es, i)
  }

  // ------------------------------------------------------------------- a common start

  /** The send thread starts, the link comes up and an authorization arrives. */
  function Preamble(): (es: seq<Event>) {
    [SenderStarts, LinkExchange(true), LinkLocked(true), Execution(true, 1, 0, 0, 0)]
  }

  lemma PreambleEvents(es: seq<Event>)
    requires Preamble() <= es
    ensures |es| >= 4 && es[0] == SenderStarts && es[1] == LinkExchange(true)
    ensures es[2] == LinkLocked(true) && es[3] == Execution(true, 1, 0, 0, 0)
  {
    var p := Preamble();
    assert es[0] == p[0] && es[1] == p[1] && es[2] == p[2] && es[3] == p[3];
  }

  lemma {:induction false} LinkAfterPreamble(es: seq<Event>, n: nat)
    requires Preamble() <= es && 3 <= n <= |es|
    requires forall i | 4 <= i < |es| :: !IsLinkEvent(es[i])
    ensures LastLink(es, n) == 2 && LastExchanged(es, n) && Started(es, n)
    decreases n
  {
    PreambleEvents(es);
    if n > 3 {
      LinkAfterPreamble(es, n - 1);
    } else {
      assert LastExchanged(es, 2);
      assert es[0].SenderStarts?;
    }
  }

  lemma LinkInPreamble(es: seq<Event>)
    requires Preamble() <= es
    ensures LastLink(es, 1) == -1 && LastLink(es, 2) == 1
  {
    PreambleEvents(es);
    assert LastLink(es, 0) == -1;
  }

  /** Such a start makes a proper run of whatever follows without changing the link. */
  lemma PreambleMakesProper(es: seq<Event>)
    requires Preamble() <= es && ClockAdvances(es)
    requires forall i | 4 <= i < |es| :: !IsLinkEvent(es[i])
    ensures Proper(es)
  {
    hide LastLink, LastExchanged, Started, ClockAdvances;
    PreambleEvents(es);
    LinkInPreamble(es);
    forall i | 3 <= i < |es| ensures LastLink(es, i) == 2 && LastExchanged(es, i) && Started(es, i) {
      LinkAfterPreamble(es, i);
    }
  }

  /** A command can pass at all: nothing does if an authorization is required that no sample
      can be fresh enough to give. */
  predicate Drivable(cfg: Config) {
    cfg.requireAuthorization ==> cfg.leaseTimeout >= 0
  }

  lemma PreambleOpens(cfg: Config, es: seq<Event>)
    requires Drivable(cfg) && Preamble() <= es
    ensures Open(cfg, After(cfg, es, 4).gate) && After(cfg, es, 4).usbOk
  {
    PreambleEvents(es);
    var a, b, c, d := After(cfg, es, 1), After(cfg, es, 2), After(cfg, es, 3), After(cfg, es, 4);
    assert After(cfg, es, 0) == START && a == Step(cfg, START, es[0]);
    assert b == Step(cfg, a, es[1]) && c == Step(cfg, b, es[2]) && d == Step(cfg, c, es[3]);
  }
}
