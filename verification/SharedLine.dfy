/** Both senders on one line: frames are written whole, one after the other. */
module SharedLine {
  import opened Framing
  import opened GimbalSender
  import opened Senders

  /** What the line carries when the frames are written one after the other, each under the
      write lock. */
  function Sent(fs: seq<Bytes>): (s: Bytes) {
    if |fs| == 0 then [] else fs[0] + Sent(fs[1..])
  }

  /** A frame of either sender, whatever its callbacks have done before. */
  ghost predicate FromSender(f: Bytes) {
    || (exists s: Image, ws: seq<Write>, stamp: Word32 ::
          RobotHeader(s) && RobotFrame(AllWritten(s, ws), stamp, f))
    || (exists c: Command, permitted: bool, stamp: Word32 ::
          Usable(c) && GimbalFrame(c, permitted, stamp, f))
  }

  lemma SenderFramesAreWellFormed(debug: bool, f: Bytes)
    requires FromSender(f)
    ensures WellFormed(SerialLine(debug), f)
  {
    hide RobotHeader, RobotFrame, GimbalFrame, SerialLine, WellFormed;
    if s: Image, ws: seq<Write>, stamp: Word32 :|
        RobotHeader(s) && RobotFrame(AllWritten(s, ws), stamp, f) {
      RobotFramesAreWellFormed(debug, s, ws, stamp, f);
    } else {
      var c: Command, permitted: bool, stamp: Word32 :|
        Usable(c) && GimbalFrame(c, permitted, stamp, f);
      GimbalFramesAreWellFormed(debug, c, permitted, stamp, f);
    }
  }

  lemma {:induction false} SentWithoutGaps(fs: seq<Bytes>)
    ensures Sent(fs) == Weave(seq(|fs| + 1, _ => []), fs)
    decreases |fs|
  {
    if |fs| > 0 {
      SentWithoutGaps(fs[1..]);
      assert seq<Bytes>(|fs| + 1, _ => [])[1..] == seq<Bytes>(|fs[1..]| + 1, _ => []);
      assert [] + fs[0] == fs[0];
    }
  }

  /** However the two senders take turns, a receiver of this format gets back exactly the frames
      that were sent, in order; without debug mode, all but those with the debug id, which is
      also the id of the robot command. */
  lemma EverythingSentIsReceived(debug: bool, fs: seq<Bytes>)
    requires forall i | 0 <= i < |fs| :: FromSender(fs[i])
    ensures var line := SerialLine(debug);
            && Frames(line, Sent(fs)) == KeepWanted(line, fs) && Pending(line, Sent(fs)) == []
            && (debug ==> KeepWanted(line, fs) == fs)
  {
    hide FromSender, SerialLine, WellFormed;
    var line := SerialLine(debug);
    forall i | 0 <= i < |fs| ensures WellFormed(line, fs[i]) {
      SenderFramesAreWellFormed(debug, fs[i]);
    }
    SentWithoutGaps(fs);
    FramesSurviveTheLine(line, seq(|fs| + 1, _ => []), fs);
    if debug {
      DebugKeepsAll(fs);
    }
  }

  lemma {:induction false} DebugKeepsAll(fs: seq<Bytes>)
    ensures KeepWanted(SerialLine(true), fs) == fs
    decreases |fs|
  {
    if |fs| > 0 {
      DebugKeepsAll(fs[1..]);
    }
  }
}
