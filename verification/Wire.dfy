/** From the outlet to the wire: what the velocity bytes of a robot command frame say about the
    run that led to it. */
module Wire {
  import opened Checksums
  import opened Clock
  import opened CommandLayout
  import opened Framing
  import opened Gate
  import opened Outlet
  import opened OutletSafety
  import opened Senders

  /** The cast to single precision, as the four bytes it stores. Only zero is interpreted. */
  type Cast = real -> Word32

  const ZERO_WORD: Word32 := [0, 0, 0, 0]

  function SpeedOf(single: Cast, n: Node): (w: Write) {
    Speed(single(n.v.vx), single(n.v.vy), single(n.v.wz), n.stop)
  }

  /** Whether the callback or thread behind an event writes the gate's output to the image. */
  predicate AppliesOutput(cfg: Config, n: Node, e: Event) {
    match e
    case CmdVel(_, _) => true
    case Execution(execute, sequence, _, _, age) =>
      !execute || !Accepts(cfg, n.gate, sequence, age)
    case EmergencyStop(active) => active
    case LinkLocked(up) => !up
    case Tick(now) => MustStop(cfg, n.gate, now)
    case _ => false
  }

  /** The image of the command after an event of the outlet; `header` is what the send thread
      writes to the first four bytes when it starts. */
  function EventWritten(cfg: Config, single: Cast, header: Word32, n: Node, e: Event, s: Image)
    : (t: Image)
  {
    if AppliesOutput(cfg, n, e) then Written(s, SpeedOf(single, Step(cfg, n, e)))
    else if e.SenderStarts? then
      Overwrite(Overwrite(Overwrite(s, 0, header), 8, ZeroBytes(12)), 21, ZeroBytes(4))
    else s
  }

  predicate NoSpeed(ws: seq<Write>) {
    forall i | 0 <= i < |ws| :: !ws[i].Speed?
  }

  /** What the other callbacks write after each event; none of them writes the velocity. */
  predicate Others(es: seq<Event>, others: seq<seq<Write>>) {
    |others| == |es| && forall i | 0 <= i < |others| :: NoSpeed(others[i])
  }

  /** The image of the command after the first `n` events of a run. */
  function ImageAfter(cfg: Config, single: Cast, header: Word32, es: seq<Event>,
                      others: seq<seq<Write>>, n: nat): (s: Image)
    requires n <= |es| == |others|
    decreases n
  {
    if n == 0 then ZeroBytes(ROBOT_CMD_SIZE)
    else
      var s := ImageAfter(cfg, single, header, es, others, n - 1);
      AllWritten(EventWritten(cfg, single, header, After(cfg, es, n - 1), es[n - 1], s),
                 others[n - 1])
  }

  /** The image carries the node's cached velocity and stop flag. */
  predicate Carries(single: Cast, s: Image, n: Node) {
    Field(s, SpeedOf(single, n)) == SpeedOf(single, n).Data()
  }

  lemma CachesUnchanged(cfg: Config, n: Node, e: Event)
    requires !AppliesOutput(cfg, n, e) && !e.SenderStarts?
    ensures Step(cfg, n, e).v == n.v && Step(cfg, n, e).stop == n.stop
  {
  }

  lemma {:induction false} OthersKeepSpeed(single: Cast, s: Image, ws: seq<Write>, n: Node)
    requires Carries(single, s, n) && NoSpeed(ws)
    ensures Carries(single, AllWritten(s, ws), n)
    decreases |ws|
  {
    if |ws| > 0 {
      hide Write.Data;
      var front, u := ws[..|ws| - 1], ws[|ws| - 1];
      OthersKeepSpeed(single, s, front, n);
      OtherFieldsUndisturbed(AllWritten(s, front), SpeedOf(single, n), u);
    }
  }

  lemma StartKeepsStop(s: Image, header: Word32, t: Image)
    requires t == Overwrite(Overwrite(Overwrite(s, 0, header), 8, ZeroBytes(12)), 21, ZeroBytes(4))
    ensures t[8..21] == ZeroBytes(12) + [s[20]]
    ensures t[..4] == header
  {
    var r := Overwrite(s, 0, header);
    var x := Overwrite(r, 8, ZeroBytes(12));
    SliceOutside(x, 21, ZeroBytes(4), 8, 21);
    SliceOutside(x, 21, ZeroBytes(4), 0, 4);
    SliceOutside(r, 8, ZeroBytes(12), 0, 4);
    assert x[20] == x[20..][0] == r[20..][0] == r[4..][16] == s[4..][16];
    assert x[8..21] == x[8..20] + [x[20]];
  }

  lemma SpeedBytes(single: Cast, n: Node)
    ensures SpeedOf(single, n).Data() == single(n.v.vx) + single(n.v.vy) + single(n.v.wz)
         + [if n.stop then 1 else 0]
    ensures SpeedOf(single, n).Data()[12] == if n.stop then 1 else 0
    ensures single(0.0) == ZERO_WORD && n.v == ZERO ==>
              SpeedOf(single, n).Data() == ZeroBytes(12) + [if n.stop then 1 else 0]
  {
  }

  lemma StopByte(single: Cast, s: Image, n: Node)
    requires Carries(single, s, n)
    ensures s[20] == if n.stop then 1 else 0
  {
    hide Write.Data;
    SpeedBytes(single, n);
    assert s[20] == s[8..21][12];
  }

  lemma EventKeepsCarrying(cfg: Config, single: Cast, header: Word32, n: Node, e: Event, s: Image)
    requires Carries(single, s, n) && single(0.0) == ZERO_WORD
    ensures Carries(single, EventWritten(cfg, single, header, n, e, s), Step(cfg, n, e))
  {
    hide Write.Data, AppliesOutput, Step, Overwrite;
    var m, t := Step(cfg, n, e), EventWritten(cfg, single, header, n, e, s);
    if AppliesOutput(cfg, n, e) {
      OtherFieldsUndisturbed(s, SpeedOf(single, m), SpeedOf(single, m));
    } else if e.SenderStarts? {
      StartKeepsStop(s, header, t);
      StopByte(single, s, n);
      StartedNode(cfg, n, e);
      SpeedBytes(single, m);
    } else {
      CachesUnchanged(cfg, n, e);
    }
  }

  lemma StartedNode(cfg: Config, n: Node, e: Event)
    requires e.SenderStarts?
    ensures Step(cfg, n, e).v == ZERO && Step(cfg, n, e).stop == n.stop
  {
  }

  /** At every moment of every run the image carries the cached velocity and stop flag. */
  lemma {:induction false} ImageCarriesNode(cfg: Config, single: Cast, header: Word32,
                                            es: seq<Event>, others: seq<seq<Write>>, n: nat)
    requires Others(es, others) && single(0.0) == ZERO_WORD && n <= |es|
    ensures Carries(single, ImageAfter(cfg, single, header, es, others, n), After(cfg, es, n))
    decreases n
  {
    hide Write.Data, Step, EventWritten, Carries, NoSpeed;
    if n == 0 {
      FirstImage(single);
    } else {
      ImageCarriesNode(cfg, single, header, es, others, n - 1);
      var f, e := After(cfg, es, n - 1), es[n - 1];
      var s := ImageAfter(cfg, single, header, es, others, n - 1);
      EventKeepsCarrying(cfg, single, header, f, e, s);
      assert NoSpeed(others[n - 1]);
      OthersKeepSpeed(single, EventWritten(cfg, single, header, f, e, s), others[n - 1],
                      Step(cfg, f, e));
    }
  }

  lemma FirstImage(single: Cast)
    requires single(0.0) == ZERO_WORD
    ensures Carries(single, ZeroBytes(ROBOT_CMD_SIZE), START)
  {
    SpeedBytes(single, START);
  }

  lemma EventKeepsHeader(cfg: Config, single: Cast, header: Word32, n: Node, e: Event, s: Image)
    ensures var t := EventWritten(cfg, single, header, n, e, s);
            t[..4] == if e.SenderStarts? then header else s[..4]
  {
    hide Write.Data, Step, Overwrite;
    var t := EventWritten(cfg, single, header, n, e, s);
    if AppliesOutput(cfg, n, e) {
      var w := SpeedOf(single, Step(cfg, n, e));
      SliceOutside(s, 8, w.Data(), 0, 4);
    } else if e.SenderStarts? {
      StartKeepsStop(s, header, t);
    }
  }

  lemma WritesKeepHeader(s: Image, ws: seq<Write>)
    ensures AllWritten(s, ws)[..4] == s[..4]
  {
    FrameBytesUndisturbed(s, ws);
    SubSlice(AllWritten(s, ws), s, 0, 8, 0, 4);
  }

  /** Once the send thread has started, no step of any run disturbs the header. */
  lemma {:induction false} HeaderStays(cfg: Config, single: Cast, header: Word32, es: seq<Event>,
                                       others: seq<seq<Write>>, i: nat, n: nat)
    requires i < n <= |es| == |others| && es[i].SenderStarts?
    ensures ImageAfter(cfg, single, header, es, others, n)[..4] == header
    decreases n
  {
    hide Write.Data, Step, EventWritten, AllWritten;
    if i < n - 1 {
      HeaderStays(cfg, single, header, es, others, i, n - 1);
    }
    var f, e := After(cfg, es, n - 1), es[n - 1];
    var s := ImageAfter(cfg, single, header, es, others, n - 1);
    EventKeepsHeader(cfg, single, header, f, e, s);
    WritesKeepHeader(EventWritten(cfg, single, header, f, e, s), others[n - 1]);
  }

  /** Whatever steps and callbacks came before, a frame made after the send thread has started is
      well formed, and its velocity bytes and stop byte are those of the snapshot it was made
      from. */
  lemma FrameShowsSnapshot(cfg: Config, single: Cast, header: Word32, es: seq<Event>,
                           others: seq<seq<Write>>, i: nat, n: nat, stamp: Word32, f: Bytes)
    requires Others(es, others) && single(0.0) == ZERO_WORD && RobotHeader(header)
    requires i < n <= |es| && es[i].SenderStarts?
    requires RobotFrame(ImageAfter(cfg, single, header, es, others, n), stamp, f)
    ensures WellFormed(SerialLine(false), f)
    ensures f[8..21] == SpeedOf(single, After(cfg, es, n)).Data()
    ensures var m := After(cfg, es, n);
            && f[8..12] == single(m.v.vx) && f[12..16] == single(m.v.vy)
            && f[16..20] == single(m.v.wz) && f[20] == if m.stop then 1 else 0
  {
    hide Write.Data, Step, EventWritten, Valid8, Valid16, ImageAfter, SerialLine, WellFormed, RobotHeader;
    var s := ImageAfter(cfg, single, header, es, others, n);
    HeaderStays(cfg, single, header, es, others, i, n);
    ImageCarriesNode(cfg, single, header, es, others, n);
    SameHeader(header, s);
    NothingWritten(s);
    RobotFramesAreWellFormed(false, s, [], stamp, f);
    SubSlice(f, s, 8, 52, 8, 21);
    SpeedBytes(single, After(cfg, es, n));
    var v := After(cfg, es, n).v;
    SpeedFieldBytes(f, single(v.vx), single(v.vy), single(v.wz), After(cfg, es, n).stop);
  }

  /** If the velocity bytes made from a snapshot are not zero, then at that moment the link was
      up, nothing demanded a stop, the required authorization was held and the watchdog had not
      expired; if the gate demanded a stop, they are zero and the stop byte is set. */
  lemma SpeedBytesAreSafe(cfg: Config, single: Cast, es: seq<Event>, n: nat)
    requires single(0.0) == ZERO_WORD && 0 < n <= |es| && es[n - 1].Tick?
    ensures var m, b := After(cfg, es, n), SpeedOf(single, After(cfg, es, n)).Data();
            && (b[..12] != ZeroBytes(12) ==>
                  && Open(cfg, m.gate) && m.gate.hasCmd && !Expired(cfg, m.gate, es[n - 1].now))
            && (MustStop(cfg, m.gate, es[n - 1].now) ==> b == ZeroBytes(12) + [1])
  {
    hide Write.Data, Step, Expired, InDeadZone;
    SpeedBytes(single, After(cfg, es, n));
    SnapshotIsSafe(cfg, es, n);
  }
}
