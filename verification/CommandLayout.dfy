/** The robot command byte by byte: where in the packed structure each callback writes, and what
    the frame therefore holds. */
module CommandLayout {
  import opened Checksums
  import opened Framing
  import opened Senders

  /** The whole effect of every callback on the 54 bytes: velocities, then the stop flag, then the
      mode in four bytes; the angles of the gimbal; the shot, with the friction wheels on. A mode
      that is neither attack, defend nor move is sent as move. */
  lemma CallbackBytes(s: Image, w: Write)
    ensures Written(s, w) == match w
            case Speed(vx, vy, wz, stop) =>
              s[..8] + vx + vy + wz + [if stop then 1 else 0] + s[21..]
            case Mode(m) => s[..21] + [if m in {1, 2, 3} then m else 3, 0, 0, 0] + s[25..]
            case Pitch(angle) => s[..41] + angle + s[45..]
            case Yaw(angle) => s[..45] + angle + s[49..]
            case Shoot(fire) => s[..49] + [fire, 1] + s[51..]
  {
    match w
    case Speed(vx, vy, wz, stop) =>
      assert vx + vy + wz + [if stop then 1 else 0] == w.Data();
    case _ =>
  }

  predicate SameCallback(w: Write, u: Write) {
    match w
    case Speed(_, _, _, _) => u.Speed?
    case Mode(_) => u.Mode?
    case Pitch(_) => u.Pitch?
    case Yaw(_) => u.Yaw?
    case Shoot(_) => u.Shoot?
  }

  lemma SameCallbackSameField(w: Write, u: Write)
    ensures SameCallback(w, u) <==> w.SameField(u)
  {
  }

  lemma FieldBytes(f: Image, w: Write)
    requires Field(f, w) == w.Data()
    ensures match w
            case Speed(vx, vy, wz, stop) =>
              f[8..12] == vx && f[12..16] == vy && f[16..20] == wz && f[20] == if stop then 1 else 0
            case Mode(m) => f[21] == (if m in {1, 2, 3} then m else 3) && f[22..25] == [0, 0, 0]
            case Pitch(angle) => f[41..45] == angle
            case Yaw(angle) => f[45..49] == angle
            case Shoot(fire) => f[49] == fire && f[50] == 1
  {
    match w
    case Speed(vx, vy, wz, stop) => SpeedFieldBytes(f, vx, vy, wz, stop);
    case Mode(m) =>
      assert f[21] == f[21..25][0];
      assert f[22..25] == f[21..25][1..];
    case Shoot(fire) => assert f[49] == f[49..51][0] && f[50] == f[49..51][1];
    case _ =>
  }

  lemma SpeedFieldBytes(f: Image, vx: Word32, vy: Word32, wz: Word32, stop: bool)
    requires f[8..21] == vx + vy + wz + [if stop then 1 else 0]
    ensures f[8..12] == vx && f[12..16] == vy && f[16..20] == wz && f[20] == if stop then 1 else 0
  {
    var b := f[8..21];
    assert f[8..12] == b[..4] && f[12..16] == b[4..8] && f[16..20] == b[8..12] && f[20] == b[12];
  }

  /** After any writes in any order, the frame that is sent holds what each callback wrote last, at
      its place in the packed structure. */
  lemma FrameHoldsLastWrite(s: Image, ws: seq<Write>, i: nat, stamp: Word32, f: Bytes)
    requires RobotFrame(AllWritten(s, ws), stamp, f)
    requires i < |ws| && forall j | i < j < |ws| :: !SameCallback(ws[i], ws[j])
    ensures |f| == 54
    ensures match ws[i]
            case Speed(vx, vy, wz, stop) =>
              f[8..12] == vx && f[12..16] == vy && f[16..20] == wz && f[20] == if stop then 1 else 0
            case Mode(m) => f[21] == (if m in {1, 2, 3} then m else 3) && f[22..25] == [0, 0, 0]
            case Pitch(angle) => f[41..45] == angle
            case Yaw(angle) => f[45..49] == angle
            case Shoot(fire) => f[49] == fire && f[50] == 1
  {
    hide Valid16, SameCallback, Write.SameField, AllWritten;
    forall j | i < j < |ws| ensures !ws[i].SameField(ws[j]) {
      SameCallbackSameField(ws[i], ws[j]);
    }
    RobotFrameShowsLastWrite(s, ws, i, stamp, f);
    FieldBytes(f, ws[i]);
  }

  /** Whether the bytes from `lo` to `hi` are the callback's. */
  predicate Writes(w: Write, lo: nat, hi: nat) {
    match w
    case Speed(_, _, _, _) => lo < 21 && 8 < hi
    case Mode(_) => lo < 25 && 21 < hi
    case Pitch(_) => lo < 45 && 41 < hi
    case Yaw(_) => lo < 49 && 45 < hi
    case Shoot(_) => lo < 51 && 49 < hi
  }

  /** Bytes that none of the callbacks wrote are those the image started with; the orientation of
      the chassis and the last byte are never written at all. */
  lemma {:induction false} UnwrittenBytesStay(s: Image, ws: seq<Write>, lo: nat, hi: nat)
    requires lo <= hi <= 54 && forall i | 0 <= i < |ws| :: !Writes(ws[i], lo, hi)
    ensures AllWritten(s, ws)[lo..hi] == s[lo..hi]
    decreases |ws|
  {
    if |ws| > 0 {
      hide Write.Data;
      var t, w := AllWritten(s, ws[..|ws| - 1]), ws[|ws| - 1];
      UnwrittenBytesStay(s, ws[..|ws| - 1], lo, hi);
      assert !Writes(w, lo, hi);
      SliceOutside(t, w.Offset(), w.Data(), lo, hi);
    }
  }

  lemma ChassisIsNeverWritten(s: Image, ws: seq<Write>)
    ensures AllWritten(s, ws)[25..41] == s[25..41] && AllWritten(s, ws)[51..] == s[51..]
  {
    hide AllWritten;
    UnwrittenBytesStay(s, ws, 25, 41);
    UnwrittenBytesStay(s, ws, 51, 54);
  }

  /** Every frame sent after the start opens with the start byte 0x5A, the payload length 48 and the
      id 0x01, and then the time stamp; chassis and tracking are those of the image at the start. */
  lemma FrameHead(s: Image, ws: seq<Write>, stamp: Word32, f: Bytes)
    requires RobotHeader(s) && RobotFrame(AllWritten(s, ws), stamp, f)
    ensures |f| == 54 && f[0] == 0x5A && f[1] == 48 && f[2] == 0x01 && f[4..8] == stamp
    ensures Valid8(f[..4]) && Valid16(f)
    ensures f[25..41] == s[25..41] && f[51] == s[51]
  {
    hide Valid8, Valid16, AllWritten;
    var t := AllWritten(s, ws);
    FrameBytesUndisturbed(s, ws);
    SubSlice(t, s, 0, 8, 0, 4);
    SameHeader(s, t);
    SameHeader(t, f);
    ChassisIsNeverWritten(s, ws);
    SubSlice(f, t, 8, 52, 25, 41);
    assert f[51] == f[8..52][43] && t[51] == t[8..52][43] && t[51] == t[51..][0] && s[51] == s[51..][0];
  }

  // --------------------------------------------------------------------- the two joints

  /** Position `k` is the last one given for the joint. */
  predicate IsLast(names: seq<string>, name: string, k: nat)
    requires k < |names|
  {
    names[k] == name && forall j | k < j < |names| :: names[j] != name
  }

  /** The four bytes from `lo` hold the last position given for the joint, or are as they were. */
  predicate HoldsJoint(s: Image, t: Image, names: seq<string>, positions: seq<Word32>, name: string,
                       lo: nat)
    requires |names| == |positions| && lo <= 50
  {
    && (name !in names ==> t[lo..lo + 4] == s[lo..lo + 4])
    && forall k | 0 <= k < |names| && IsLast(names, name, k) :: t[lo..lo + 4] == positions[k]
  }

  lemma HoldsJointStep(s: Image, t: Image, u: Image, names: seq<string>, positions: seq<Word32>,
                       name: string, lo: nat)
    requires 0 < |names| == |positions| && lo <= 50
    requires var n := |names| - 1;
             && HoldsJoint(s, t, names[..n], positions[..n], name, lo)
             && u[lo..lo + 4] == if names[n] == name then positions[n] else t[lo..lo + 4]
    ensures HoldsJoint(s, u, names, positions, name, lo)
  {
    var n := |names| - 1;
    if name !in names {
      assert name !in names[..n] && names[n] in names;
    }
    forall k | 0 <= k < |names| && IsLast(names, name, k) ensures u[lo..lo + 4] == positions[k] {
      if k < n {
        assert IsLast(names[..n], name, k);
      }
    }
  }

  lemma OneJoint(t: Image, name: string, angle: Word32, u: Image)
    requires u == AllWritten(t, JointWrite(name, angle))
    ensures u[..41] == t[..41] && u[49..] == t[49..]
    ensures u[41..45] == if name == "gimbal_pitch_joint" then angle else t[41..45]
    ensures u[45..49] == if name == "gimbal_yaw_joint" then angle else t[45..49]
  {
    hide AllWritten, Written;
    NothingWritten(t);
    OneWrite(t, Pitch(angle));
    OneWrite(t, Yaw(angle));
    AnglesWritten(t, angle);
  }

  lemma AnglesWritten(t: Image, angle: Word32)
    ensures var u := Written(t, Pitch(angle));
            && u[..41] == t[..41] && u[41..45] == angle && u[45..49] == t[45..49]
            && u[49..] == t[49..]
    ensures var u := Written(t, Yaw(angle));
            && u[..41] == t[..41] && u[41..45] == t[41..45] && u[45..49] == angle
            && u[49..] == t[49..]
  {
    SliceOutside(t, 41, angle, 0, 41);
    SliceOutside(t, 41, angle, 45, 49);
    SliceOutside(t, 45, angle, 0, 41);
    SliceOutside(t, 45, angle, 41, 45);
    SliceOutside(t, 41, angle, 49, 54);
  }

  lemma OneWrite(t: Image, w: Write)
    ensures AllWritten(t, [w]) == Written(t, w)
  {
    hide Written;
    NothingWritten(t);
    assert [w][..0] == [];
  }

  /** What a joint message does to the image, if its two arrays are equally long: bytes 41 to 44 hold
      the last position given for the pitch joint, bytes 45 to 48 the last one for the yaw joint, a
      joint that is not named keeps its bytes, and nothing else changes. */
  lemma {:induction false} JointBytes(s: Image, names: seq<string>, positions: seq<Word32>)
    requires |names| == |positions|
    ensures var t := AllWritten(s, JointWrites(names, positions));
            && HoldsJoint(s, t, names, positions, "gimbal_pitch_joint", 41)
            && HoldsJoint(s, t, names, positions, "gimbal_yaw_joint", 45)
            && t[..41] == s[..41] && t[49..] == s[49..]
    decreases |names|
  {
    if |names| == 0 {
      NothingWritten(s);
    } else {
      hide AllWritten, JointWrites, JointWrite, HoldsJoint;
      var n := |names| - 1;
      JointBytes(s, names[..n], positions[..n]);
      JointWritesLast(names, positions);
      AllWrittenConcat(s, JointWrites(names[..n], positions[..n]),
                       JointWrite(names[n], positions[n]));
      JointBytesStep(s, AllWritten(s, JointWrites(names[..n], positions[..n])), names, positions,
                     AllWritten(s, JointWrites(names, positions)));
    }
  }

  lemma JointWritesLast(names: seq<string>, positions: seq<Word32>)
    requires 0 < |names| == |positions|
    ensures JointWrites(names, positions)
         == JointWrites(names[..|names| - 1], positions[..|names| - 1])
          + JointWrite(names[|names| - 1], positions[|names| - 1])
  {
    hide JointWrite;
  }

  lemma JointBytesStep(s: Image, t: Image, names: seq<string>, positions: seq<Word32>, u: Image)
    requires 0 < |names| == |positions|
    requires var n := |names| - 1;
             && HoldsJoint(s, t, names[..n], positions[..n], "gimbal_pitch_joint", 41)
             && HoldsJoint(s, t, names[..n], positions[..n], "gimbal_yaw_joint", 45)
             && u == AllWritten(t, JointWrite(names[n], positions[n]))
    requires t[..41] == s[..41] && t[49..] == s[49..]
    ensures HoldsJoint(s, u, names, positions, "gimbal_pitch_joint", 41)
    ensures HoldsJoint(s, u, names, positions, "gimbal_yaw_joint", 45)
    ensures u[..41] == s[..41] && u[49..] == s[49..]
  {
    hide AllWritten, JointWrite, HoldsJoint;
    var n := |names| - 1;
    OneJoint(t, names[n], positions[n], u);
    HoldsJointStep(s, t, u, names, positions, "gimbal_pitch_joint", 41);
    HoldsJointStep(s, t, u, names, positions, "gimbal_yaw_joint", 45);
  }

  /** Otherwise it does nothing. */
  lemma UnequalArraysAreIgnored(s: Image, names: seq<string>, positions: seq<Word32>)
    requires |names| != |positions|
    ensures AllWritten(s, JointWrites(names, positions)) == s
  {
    NothingWritten(s);
  }
}
