/** The thread that forwards gimbal commands: only fresh, complete and finite ones, with the
    firing mode downgraded unless firing is permitted. */
module GimbalSender {
  import opened Checksums
  import opened Clock
  import opened Framing
  import opened Senders

  const TIMEOUT_MS := 100
  const MODE_TRACK_NO_FIRE: bv8 := 1
  const MODE_TRACK_AND_FIRE: bv8 := 2

  /** A number of a command message: whether it is finite, and what its casts to a byte and to
      single precision yield. The cast to a byte is undefined outside its range, so the byte is
      not tied to anything. */
  datatype Number = Number(finite: bool, byte: bv8, single: Word32)

  /** The latest message and its arrival; time 0 means that none has arrived. */
  datatype Command = Command(data: seq<Number>, time: Time)

  predicate IsFresh(c: Command, now: Time) {
    c.time != 0 && now - c.time < TIMEOUT_MS * MS
  }

  predicate Usable(c: Command) {
    |c.data| == 7 && forall i | 0 <= i < 7 :: c.data[i].finite
  }

  /** The command has arrived, less than 100 ms ago, and is seven finite numbers. */
  predicate Sendable(c: Command, now: Time) {
    c.time != 0 && now - c.time < 100_000_000 && |c.data| == 7
    && forall i | 0 <= i < 7 :: c.data[i].finite
  }

  /** The mode that is sent for a requested one. */
  function Downgraded(mode: bv8, permitted: bool): (m: bv8)
    ensures m <= MODE_TRACK_AND_FIRE
    ensures m == MODE_TRACK_AND_FIRE <==> mode == MODE_TRACK_AND_FIRE && permitted
  {
    if mode > MODE_TRACK_AND_FIRE then 0
    else if mode == MODE_TRACK_AND_FIRE && !permitted then MODE_TRACK_NO_FIRE
    else mode
  }

  function Singles(c: Command): (b: Bytes)
    requires Usable(c)
    ensures |b| == 24
  {
    c.data[1].single + c.data[2].single + c.data[3].single + c.data[4].single
    + c.data[5].single + c.data[6].single
  }

  predicate GimbalHeader(s: Bytes) {
    |s| >= 3 && s[0] == SOF && s[1] == 29 && s[2] == ID_GIMBAL_CMD
  }

  /** The frame sent for a command. */
  predicate GimbalFrame(c: Command, permitted: bool, stamp: Word32, f: Bytes)
    requires Usable(c)
  {
    && |f| == GIMBAL_CMD_SIZE && GimbalHeader(f) && Valid8(f[..4]) && Valid16(f)
    && f[4..8] == stamp && f[8] == Downgraded(c.data[0].byte, permitted)
    && f[9..33] == Singles(c)
  }

  lemma HeaderSurvives(s: Bytes, t: Bytes)
    requires |s| >= 3 && |t| >= 3 && s[..3] == t[..3] && GimbalHeader(s)
    ensures GimbalHeader(t)
  {
    assert t[0] == t[..3][0] && t[1] == t[..3][1] && t[2] == t[..3][2];
  }

  /** The bytes between header and trailer before the checksums are appended. */
  predicate Filled(c: Command, permitted: bool, stamp: Word32, s: Bytes)
    requires Usable(c)
  {
    && |s| == GIMBAL_CMD_SIZE && GimbalHeader(s)
    && s[4..8] == stamp && s[8] == Downgraded(c.data[0].byte, permitted)
    && s[9..33] == Singles(c)
  }

  lemma CommandFilled(c: Command, permitted: bool, stamp: Word32, r: Bytes, s: Bytes, t: Bytes,
                      u: Bytes)
    requires Usable(c) && |r| == GIMBAL_CMD_SIZE && GimbalHeader(r)
    requires s == Overwrite(r[8 := c.data[0].byte], 9, Singles(c))
    requires t == s[8 := Downgraded(s[8], permitted)] && u == Overwrite(t, 4, stamp)
    ensures Filled(c, permitted, stamp, u)
  {
    hide Singles, Downgraded;
    assert u[4..8] == stamp;
    assert s[8] == c.data[0].byte && u[8] == t[8];
    assert u[9..33] == t[9..33] == s[9..33];
    assert u[..3] == t[..3] == s[..3] == r[..3];
    HeaderSurvives(r, u);
  }

  lemma HeaderSealed(c: Command, permitted: bool, stamp: Word32, s: Bytes, t: Bytes)
    requires Usable(c) && Filled(c, permitted, stamp, s)
    requires |t| == |s| && t[..3] == s[..3] && t[4..] == s[4..]
    ensures Filled(c, permitted, stamp, t)
  {
    hide Singles;
    HeaderSurvives(s, t);
    SubSlice(t, s, 4, 35, 4, 8);
    SubSlice(t, s, 4, 35, 9, 33);
    assert t[8] == t[4..][4] && s[8] == s[4..][4];
  }

  lemma FrameSealed(c: Command, permitted: bool, stamp: Word32, s: Bytes, f: Bytes)
    requires Usable(c) && Filled(c, permitted, stamp, s) && Valid8(s[..4])
    requires |f| == |s| && f[..33] == s[..33] && Valid16(f)
    ensures GimbalFrame(c, permitted, stamp, f) && GimbalHeader(f)
  {
    hide Singles, Valid8, Valid16;
    SubSlice(f, s, 0, 33, 0, 3);
    SubSlice(f, s, 0, 33, 0, 4);
    SubSlice(f, s, 0, 33, 4, 8);
    SubSlice(f, s, 0, 33, 9, 33);
    HeaderSurvives(s, f);
    assert f[8] == f[..33][8] && s[8] == s[..33][8];
  }

  lemma StillHeader(c: Command, permitted: bool, stamp: Word32, s: Bytes)
    requires Usable(c) && Filled(c, permitted, stamp, s)
    ensures |s| == GIMBAL_CMD_SIZE && GimbalHeader(s)
  {
  }

  class GimbalCmdSender {
    /** The structure that is kept from tick to tick. */
    const cmd: array<bv8>
    var latest: Command

    ghost predicate Valid()
      reads this, cmd
    {
      cmd.Length == GIMBAL_CMD_SIZE && GimbalHeader(cmd[..])
    }

    /** The header is set up once, when the thread starts. */
    constructor ()
      ensures Valid() && fresh(cmd) && latest.time == 0
    {
      cmd := new bv8[GIMBAL_CMD_SIZE](i =>
        if i == 0 then SOF else if i == 1 then 29 else if i == 2 then ID_GIMBAL_CMD else 0);
      latest := Command([], 0);
    }

    method OnGimbalCmd(data: seq<Number>, time: Time)
      modifies this
      ensures latest == Command(data, time) && cmd[..] == old(cmd[..])
    {
      latest := Command(data, time);
    }

    method AllFinite() returns (finite: bool)
      ensures finite <==> forall i | 0 <= i < |latest.data| :: latest.data[i].finite
    {
      finite := true;
      for i := 0 to |latest.data|
        invariant finite <==> forall j | 0 <= j < i :: latest.data[j].finite
      {
        finite := finite && latest.data[i].finite;
      }
    }

    /** Copies a usable command into the structure. */
    method Fill()
      requires Valid() && Usable(latest)
      modifies cmd
      ensures Valid()
      ensures cmd[..] == Overwrite(old(cmd[..])[8 := latest.data[0].byte], 9, Singles(latest))
    {
      hide Singles, GimbalHeader;
      ghost var s := cmd[..];
      cmd[8] := latest.data[0].byte;
      assert cmd[..] == s[8 := latest.data[0].byte];
      Put(cmd, 9, Singles(latest));
      HeaderSurvives(s, cmd[..]);
    }

    /** Downgrades the mode in place. */
    method Downgrade(permitted: bool)
      requires Valid()
      modifies cmd
      ensures Valid() && cmd[..] == old(cmd[..])[8 := Downgraded(old(cmd[8]), permitted)]
    {
      hide GimbalHeader;
      ghost var s := cmd[..];
      if cmd[8] > MODE_TRACK_AND_FIRE {
        cmd[8] := 0;
      }
      if cmd[8] == MODE_TRACK_AND_FIRE && !permitted {
        cmd[8] := MODE_TRACK_NO_FIRE;
      }
      HeaderSurvives(s, cmd[..]);
    }

    /** One tick of the loop: sends a frame for a fresh and usable command and nothing for any
        other. */
    method SendTick(now: Time, permitted: bool, stamp: Word32) returns (frames: seq<Bytes>)
      requires Valid()
      modifies cmd
      ensures Valid()
      ensures frames != [] <==> Sendable(latest, now)
      ensures frames == [] ==> cmd[..] == old(cmd[..])
      ensures frames != [] ==>
                Usable(latest) && |frames| == 1 && GimbalFrame(latest, permitted, stamp, frames[0])
    {
      hide Valid8, Valid16, GimbalFrame, Filled, GimbalHeader;
      var hasCmd := false;
      var fresh' := latest.time != 0 && now - latest.time < TIMEOUT_MS * MS;
      if |latest.data| == 7 && fresh' {
        hasCmd := AllFinite();
      }
      if !hasCmd {
        return [];
      }
      frames := SendFrame(permitted, stamp);
    }

    /** Everything between header and trailer. */
    method Prepare(permitted: bool, stamp: Word32)
      requires Valid() && Usable(latest)
      modifies cmd
      ensures Valid() && Filled(latest, permitted, stamp, cmd[..])
    {
      hide Usable, GimbalHeader, Overwrite, Downgraded, Filled, Singles;
      ghost var r := cmd[..];
      Fill();
      ghost var s := cmd[..];
      Downgrade(permitted);
      ghost var t := cmd[..];
      Put(cmd, 4, stamp);
      CommandFilled(latest, permitted, stamp, r, s, t, cmd[..]);
      StillHeader(latest, permitted, stamp, cmd[..]);
    }

    method SendFrame(permitted: bool, stamp: Word32) returns (frames: seq<Bytes>)
      requires Valid() && Usable(latest)
      modifies cmd
      ensures Valid()
      ensures |frames| == 1 && GimbalFrame(latest, permitted, stamp, frames[0])
    {
      hide Valid8, Valid16, GimbalFrame, Usable, GimbalHeader, Overwrite, Downgraded;
      Prepare(permitted, stamp);
      ghost var s := cmd[..];
      AppendCrc8CheckSum(cmd, 4);
      ghost var t := cmd[..];
      HeaderSealed(latest, permitted, stamp, s, t);
      AppendCrc16CheckSum(cmd, GIMBAL_CMD_SIZE);
      var f := cmd[..];
      assert f == cmd[..GIMBAL_CMD_SIZE];
      FrameSealed(latest, permitted, stamp, t, f);
      frames := [f];
    }
  }

  lemma GimbalFramesAreWellFormed(debug: bool, c: Command, permitted: bool, stamp: Word32, f: Bytes)
    requires Usable(c) && GimbalFrame(c, permitted, stamp, f)
    ensures WellFormed(SerialLine(debug), f) && f[1] as nat == |f| - 6
  {
    hide Valid8, Valid16, Singles;
  }

  lemma SixWords(a: Word32, b: Word32, c: Word32, d: Word32, e: Word32, g: Word32, f: Bytes)
    requires |f| == 35 && f[9..33] == a + b + c + d + e + g
    ensures f[9..13] == a && f[13..17] == b && f[17..21] == c && f[21..25] == d
    ensures f[25..29] == e && f[29..33] == g
  {
    var s := f[9..33];
    forall k | 0 <= k < 4
      ensures f[9 + k] == a[k] && f[13 + k] == b[k] && f[17 + k] == c[k]
      ensures f[21 + k] == d[k] && f[25 + k] == e[k] && f[29 + k] == g[k]
    {
      assert s[k] == a[k] && s[4 + k] == b[k] && s[8 + k] == c[k];
      assert s[12 + k] == d[k] && s[16 + k] == e[k] && s[20 + k] == g[k];
    }
  }

  /** A gimbal frame byte by byte: start byte 0x5A, payload length 29, id 0x02 and the time stamp;
      the mode, where an unknown one becomes 0 and firing that is not permitted becomes tracking;
      then yaw, its velocity and acceleration, pitch, its velocity and acceleration. */
  lemma GimbalFrameBytes(c: Command, permitted: bool, stamp: Word32, f: Bytes)
    requires Usable(c) && GimbalFrame(c, permitted, stamp, f)
    ensures |f| == 35 && f[0] == 0x5A && f[1] == 29 && f[2] == 0x02 && f[4..8] == stamp
    ensures f[8] == if c.data[0].byte == 2 then (if permitted then 2 else 1)
                    else if c.data[0].byte < 2 then c.data[0].byte else 0
    ensures f[9..13] == c.data[1].single && f[13..17] == c.data[2].single
    ensures f[17..21] == c.data[3].single && f[21..25] == c.data[4].single
    ensures f[25..29] == c.data[5].single && f[29..33] == c.data[6].single
  {
    hide Valid8, Valid16;
    SixWords(c.data[1].single, c.data[2].single, c.data[3].single, c.data[4].single,
             c.data[5].single, c.data[6].single, f);
  }
}
