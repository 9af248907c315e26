/** The two senders that share the serial line: the robot command, whose header is checksummed
    once, and the gimbal command, rebuilt on every tick. Structures are their memory images. */
module Senders {
  import opened Checksums
  import opened ErrorDetection
  import opened Framing

  const ID_ROBOT_CMD: bv8 := 0x01
  const ID_GIMBAL_CMD: bv8 := 0x02

  /** The sizes of the packed structures. */
  const ROBOT_CMD_SIZE: nat := 54
  const GIMBAL_CMD_SIZE: nat := 35

  /** A 32-bit word as it lies in memory; single-precision numbers are not interpreted. */
  type Word32 = b: Bytes | |b| == 4 witness [0, 0, 0, 0]

  // ------------------------------------------------------------- memory images

  /** The bytes `b` written over `s` from position `k` on. */
  function Overwrite(s: Bytes, k: nat, b: Bytes): (t: Bytes)
    requires k + |b| <= |s|
    ensures |t| == |s| && t[..k] == s[..k] && t[k..k + |b|] == b && t[k + |b|..] == s[k + |b|..]
  {
    s[..k] + b + s[k + |b|..]
  }

  method Put(a: array<bv8>, k: nat, b: Bytes)
    requires k + |b| <= a.Length
    modifies a
    ensures a[..] == Overwrite(old(a[..]), k, b)
  {
    var i := 0;
    while i < |b|
      invariant 0 <= i <= |b|
      invariant a[..] == old(a[..k]) + b[..i] + old(a[k + i..])
    {
      a[k + i] := b[i];
      i := i + 1;
    }
  }

  lemma SliceOutside(s: Bytes, k: nat, b: Bytes, i: nat, j: nat)
    requires k + |b| <= |s| && i <= j <= |s| && (j <= k || k + |b| <= i)
    ensures Overwrite(s, k, b)[i..j] == s[i..j]
  {
  }

  lemma TailsAgree(s: Bytes, t: Bytes, k: nat, b: Bytes)
    requires |s| == |t| && 4 <= k && k + |b| <= |s| && s[4..] == t[4..]
    ensures Overwrite(s, k, b)[4..] == Overwrite(t, k, b)[4..]
  {
    forall i | 4 <= i < |s| ensures s[i] == t[i] {
      assert s[i] == s[4..][i - 4] && t[i] == t[4..][i - 4];
    }
  }

  lemma SubSlice(s: Bytes, t: Bytes, lo: nat, hi: nat, i: nat, j: nat)
    requires lo <= i <= j <= hi <= |s| && hi <= |t| && s[lo..hi] == t[lo..hi]
    ensures s[i..j] == t[i..j]
  {
    forall k | i <= k < j ensures s[k] == t[k] {
      assert s[k] == s[lo..hi][k - lo] && t[k] == t[lo..hi][k - lo];
    }
  }

  // ------------------------------------------------------------- the robot command

  /** What a callback writes into the command image. */
  datatype Write =
    | Speed(vx: Word32, vy: Word32, wz: Word32, stop: bool)
    | Pitch(angle: Word32)
    | Yaw(angle: Word32)
    | Shoot(fire: bv8)
    | Mode(mode: bv8)
  {
    /** Where in the structure the write goes. */
    function Offset(): (k: nat) {
      match this
      case Speed(_, _, _, _) => 8 case Mode(_) => 21 case Pitch(_) => 41 case Yaw(_) => 45
      case Shoot(_) => 49
    }

    function Data(): (b: Bytes)
      ensures |b| == (match this case Speed(_, _, _, _) => 13 case Shoot(_) => 2 case _ => 4)
    {
      match this
      case Speed(vx, vy, wz, stop) => vx + vy + wz + [if stop then 1 else 0]
      case Pitch(angle) => angle
      case Yaw(angle) => angle
      case Shoot(fire) => [fire, 1]
      case Mode(mode) => [if mode == 1 || mode == 2 then mode else 3, 0, 0, 0]
    }

    predicate SameField(w: Write) {
      Offset() == w.Offset()
    }
  }

  type Image = s: Bytes | |s| == ROBOT_CMD_SIZE witness seq(ROBOT_CMD_SIZE, _ => 0)

  function Written(s: Image, w: Write): (t: Image) {
    Overwrite(s, w.Offset(), w.Data())
  }

  /** The image after the callbacks have written `ws`, in that order. */
  function AllWritten(s: Image, ws: seq<Write>): (t: Image)
    decreases |ws|
  {
    if |ws| == 0 then s else Written(AllWritten(s, ws[..|ws| - 1]), ws[|ws| - 1])
  }

  /** No callback ever disturbs the header, the time stamp or the trailer. */
  lemma {:induction false} FrameBytesUndisturbed(s: Image, ws: seq<Write>)
    ensures AllWritten(s, ws)[..8] == s[..8] && AllWritten(s, ws)[52..] == s[52..]
    decreases |ws|
  {
    if |ws| > 0 {
      var w, t := ws[|ws| - 1], AllWritten(s, ws[..|ws| - 1]);
      FrameBytesUndisturbed(s, ws[..|ws| - 1]);
      SliceOutside(t, w.Offset(), w.Data(), 0, 8);
      SliceOutside(t, w.Offset(), w.Data(), 52, 54);
    }
  }

  /** The field of `w` in an image. */
  function Field(s: Image, w: Write): (b: Bytes) {
    s[w.Offset()..w.Offset() + |w.Data()|]
  }

  lemma OtherFieldsUndisturbed(s: Image, w: Write, u: Write)
    ensures Field(Written(s, u), w) == if w.SameField(u) then u.Data() else Field(s, w)
  {
    if !w.SameField(u) {
      SliceOutside(s, u.Offset(), u.Data(), w.Offset(), w.Offset() + |w.Data()|);
    }
  }

  /** Every field holds what was last written to it, whatever was written to the others. */
  lemma {:induction false} LastWriteWins(s: Image, ws: seq<Write>, i: nat)
    requires i < |ws| && forall j | i < j < |ws| :: !ws[i].SameField(ws[j])
    ensures Field(AllWritten(s, ws), ws[i]) == ws[i].Data()
    decreases |ws|
  {
    var t, u := AllWritten(s, ws[..|ws| - 1]), ws[|ws| - 1];
    OtherFieldsUndisturbed(t, ws[i], u);
    if i < |ws| - 1 {
      var front := ws[..|ws| - 1];
      assert front[i] == ws[i];
      LastWriteWins(s, front, i);
    }
  }

  /** The header the send thread sets up before its loop. */
  predicate RobotHeader(s: Bytes) {
    |s| >= 4 && s[0] == SOF && s[1] == 48 && s[2] == ID_ROBOT_CMD && Valid8(s[..4])
  }

  /** There is only one such header. */
  lemma HeaderIsUnique(h: Word32, k: Word32)
    requires RobotHeader(h) && RobotHeader(k)
    ensures h == k
  {
    hide Valid8;
    var p := [SOF, 48, ID_ROBOT_CMD];
    assert h[..4] == h == p + [h[3]] && k[..4] == k == p + [k[3]];
    TrailerUnique8(p, h[3], k[3]);
  }

  lemma SameHeader(s: Bytes, t: Bytes)
    requires |s| >= 4 && |t| >= 4 && s[..4] == t[..4]
    ensures RobotHeader(s) <==> RobotHeader(t)
  {
    hide Valid8;
    assert s[0] == s[..4][0] && s[1] == s[..4][1] && s[2] == s[..4][2];
    assert t[0] == t[..4][0] && t[1] == t[..4][1] && t[2] == t[..4][2];
  }

  lemma HeaderSetUp(s: Bytes, f: Bytes)
    requires |s| == |f| >= 4 && s[0] == SOF && s[1] == 48 && s[2] == ID_ROBOT_CMD
    requires f[..3] == s[..3] && Valid8(f[..4])
    ensures RobotHeader(f)
  {
    hide Valid8;
    assert f[0] == f[..3][0] && f[1] == f[..3][1] && f[2] == f[..3][2];
  }

  lemma StampAndTrailer(s: Image, stamp: Word32, t: Bytes, f: Bytes)
    requires t == Overwrite(s, 4, stamp) && |f| == |t| && f[..52] == t[..52] && Valid16(f)
    ensures RobotFrame(s, stamp, f)
  {
    hide Valid16;
    SubSlice(f, t, 0, 52, 0, 4);
    SubSlice(f, t, 0, 52, 4, 8);
    SubSlice(f, t, 0, 52, 8, 52);
    SliceOutside(s, 4, stamp, 8, 52);
  }

  /** The bytes that the sender may emit for an image: the image itself, with a time stamp and a
      trailer that makes it valid. */
  predicate RobotFrame(image: Image, stamp: Word32, f: Bytes) {
    && |f| == ROBOT_CMD_SIZE && Valid16(f)
    && f[..4] == image[..4] && f[4..8] == stamp && f[8..52] == image[8..52]
  }

  class RobotCmdSender {
    const image: array<bv8>

    ghost predicate Valid() {
      image.Length == ROBOT_CMD_SIZE
    }

    ghost function Contents(): (s: Image)
      requires Valid()
      reads image
    {
      image[..]
    }

    /** The send thread has set up the header. */
    ghost predicate Started()
      requires Valid()
      reads image
    {
      RobotHeader(image[..])
    }

    constructor ()
      ensures Valid() && fresh(image) && Contents() == ZeroBytes(ROBOT_CMD_SIZE)
    {
      image := new bv8[ROBOT_CMD_SIZE](_ => 0);
    }

    /** The locked block before the loop of `sendData`: the only place where the header and its
        CRC8 are written. */
    method Start()
      requires Valid()
      modifies image
      ensures Started()
      ensures Contents()[4..]
           == Overwrite(Overwrite(old(Contents()), 8, ZeroBytes(12)), 21, ZeroBytes(4))[4..]
    {
      hide Valid8, RobotHeader, Overwrite;
      ghost var s0 := Contents();
      image[0], image[1], image[2] := SOF, (ROBOT_CMD_SIZE - 6) as bv8, ID_ROBOT_CMD;
      ghost var s1 := Contents();
      Put(image, 8, ZeroBytes(12));
      Put(image, 21, ZeroBytes(4));
      ghost var s3 := Contents();
      AppendCrc8CheckSum(image, 4);
      TailsAgree(s0, s1, 8, ZeroBytes(12));
      TailsAgree(Overwrite(s0, 8, ZeroBytes(12)), Overwrite(s1, 8, ZeroBytes(12)), 21, ZeroBytes(4));
      SubSlice(s3, Overwrite(s1, 8, ZeroBytes(12)), 0, 21, 0, 3);
      SubSlice(Overwrite(s1, 8, ZeroBytes(12)), s1, 0, 8, 0, 3);
      HeaderSetUp(s1, image[..]);
    }

    /** A callback's write under the lock. */
    method Apply(w: Write)
      requires Valid()
      modifies image
      ensures Contents() == Written(old(Contents()), w)
      ensures Started() <==> old(Started())
    {
      hide RobotHeader;
      SliceOutside(Contents(), w.Offset(), w.Data(), 0, 4);
      ghost var s := Contents();
      Put(image, w.Offset(), w.Data());
      SameHeader(s, Contents());
    }

    method ApplyJoint(name: string, angle: Word32)
      requires Valid()
      modifies image
      ensures Contents() == AllWritten(old(Contents()), JointWrite(name, angle))
      ensures Started() <==> old(Started())
    {
      hide RobotHeader, Written;
      if name == "gimbal_pitch_joint" {
        Apply(Pitch(angle));
      } else if name == "gimbal_yaw_joint" {
        Apply(Yaw(angle));
      }
    }

    /** `cmdGimbalJointCallback`: ignores messages whose two arrays differ in length. */
    method GimbalJoints(names: seq<string>, positions: seq<Word32>)
      requires Valid()
      modifies image
      ensures Contents() == AllWritten(old(Contents()), JointWrites(names, positions))
      ensures Started() <==> old(Started())
    {
      hide RobotHeader, AllWritten, JointWrite;
      if |names| != |positions| {
        NothingWritten(Contents());
        return;
      }
      NothingWritten(Contents());
      var i := 0;
      while i < |names|
        invariant 0 <= i <= |names|
        invariant Contents() == AllWritten(old(Contents()), JointWrites(names[..i], positions[..i]))
        invariant Started() <==> old(Started())
      {
        JointWritesStep(names, positions, i);
        AllWrittenConcat(old(Contents()), JointWrites(names[..i], positions[..i]),
                         JointWrite(names[i], positions[i]));
        ApplyJoint(names[i], positions[i]);
        i := i + 1;
      }
      assert names[..i] == names && positions[..i] == positions;
    }

    /** One round of the send loop: a copy of the image gets a time stamp and its trailer. */
    method Send(stamp: Word32) returns (frame: Bytes)
      requires Valid() && Started()
      ensures RobotFrame(Contents(), stamp, frame)
    {
      hide Valid16, RobotFrame, Overwrite;
      var packet := new bv8[ROBOT_CMD_SIZE](i requires 0 <= i < image.Length reads image => image[i]);
      assert packet[..] == image[..];
      Put(packet, 4, stamp);
      ghost var stamped := packet[..];
      AppendCrc16CheckSum(packet, ROBOT_CMD_SIZE);
      frame := packet[..];
      assert frame == packet[..ROBOT_CMD_SIZE];
      StampAndTrailer(Contents(), stamp, stamped, frame);
    }
  }

  /** The write, if any, that one joint of a message amounts to. */
  function JointWrite(name: string, angle: Word32): (ws: seq<Write>) {
    if name == "gimbal_pitch_joint" then [Pitch(angle)]
    else if name == "gimbal_yaw_joint" then [Yaw(angle)]
    else []
  }

  function JointWrites(names: seq<string>, positions: seq<Word32>): (ws: seq<Write>)
    decreases |names|
  {
    if |names| != |positions| || |names| == 0 then []
    else
      var n := |names| - 1;
      JointWrites(names[..n], positions[..n]) + JointWrite(names[n], positions[n])
  }

  lemma JointWritesStep(names: seq<string>, positions: seq<Word32>, i: nat)
    requires |names| == |positions| && i < |names|
    ensures JointWrites(names[..i + 1], positions[..i + 1])
         == JointWrites(names[..i], positions[..i]) + JointWrite(names[i], positions[i])
  {
    hide JointWrite;
    assert names[..i + 1][..i] == names[..i] && positions[..i + 1][..i] == positions[..i];
  }

  lemma NothingWritten(s: Image)
    ensures AllWritten(s, []) == s
  {
  }

  lemma {:induction false} AllWrittenConcat(s: Image, ws: seq<Write>, us: seq<Write>)
    ensures AllWritten(s, ws + us) == AllWritten(AllWritten(s, ws), us)
    decreases |us|
  {
    if |us| == 0 {
      assert ws + us == ws;
    } else {
      var front := us[..|us| - 1];
      assert (ws + us)[..|ws + us| - 1] == ws + front;
      AllWrittenConcat(s, ws, front);
    }
  }

  /** Whatever the callbacks have written since the start, in whatever order, the frame that is
      sent is well formed and passes both verifiers. */
  lemma RobotFramesAreWellFormed(debug: bool, s: Image, ws: seq<Write>, stamp: Word32, f: Bytes)
    requires RobotHeader(s) && RobotFrame(AllWritten(s, ws), stamp, f)
    ensures WellFormed(SerialLine(debug), f) && f[1] as nat == |f| - 6
  {
    hide Valid8, Valid16;
    var t := AllWritten(s, ws);
    FrameBytesUndisturbed(s, ws);
    assert t[..4] == t[..8][..4] == s[..8][..4] == s[..4];
    assert f[0] == f[..4][0] && f[1] == f[..4][1] && s[..4][1] == s[1];
  }

  /** The receiving end reads from the frame what was last written to the field. */
  lemma RobotFrameShowsLastWrite(s: Image, ws: seq<Write>, i: nat, stamp: Word32, f: Bytes)
    requires i < |ws| && forall j | i < j < |ws| :: !ws[i].SameField(ws[j])
    requires RobotFrame(AllWritten(s, ws), stamp, f)
    ensures Field(f, ws[i]) == ws[i].Data()
  {
    hide Valid16;
    LastWriteWins(s, ws, i);
    var w := ws[i];
    SubSlice(f, AllWritten(s, ws), 8, 52, w.Offset(), w.Offset() + |w.Data()|);
  }
}
