/** What is published, told by the frames themselves: by the id byte, the length byte and the
    fields of each structure. */
module Packets {
  import opened Checksums
  import opened Framing
  import opened Receiver

  /** Every packet published from any stream comes from a delivered frame whose id byte is that of
      its kind; joint and gimbal states also have the length of their structure. The packet is as
      long as the fields of its structure together, header, time stamp and checksum included, and
      holds the bytes of the frame, the surplus ones dropped and the missing ones zero. */
  lemma PublishedHasFrame(debug: bool, cfg: Config, s: Bytes, p: Packet) returns (f: Bytes)
    requires p in Published(SerialLine(debug), cfg, s)
    ensures f in Frames(SerialLine(debug), s) && 6 <= |f| <= 64
    ensures match p.kind
            case DebugData => f[2] == 0x01 && debug
            case ImuData => f[2] == 0x02
            case RobotInfo => f[2] == 0x03
            case EventData => f[2] == 0x04
            case AllRobotHp => f[2] == 0x06
            case GameStatus => f[2] == 0x07
            case RobotMotion => f[2] == 0x08
            case GroundRobotPosition => f[2] == 0x09
            case RfidStatus => f[2] == 0x0A
            case RobotStatus => f[2] == 0x0B
            case JointState => f[2] == 0x0C && |f| == 22
            case LegacyJointState => f[2] == 0x0C && |f| == 18 && cfg.acceptLegacyJointState
            case Buff => f[2] == 0x0D
            case GimbalState => f[2] == 0x0E && |f| == 49 && cfg.gimbalBridge
    ensures |p.image| == match p.kind
            case DebugData => 4 + 4 + 10 * (10 + 1 + 4) + 2
            case ImuData => 4 + 4 + 6 * 4 + 2
            case RobotInfo => 4 + 4 + (2 + 1) + 2
            case EventData => 4 + 4 + 2 + 2
            case AllRobotHp => 4 + 4 + 14 * 2 + 2
            case GameStatus => 4 + 4 + (1 + 2) + 2
            case RobotMotion => 4 + 4 + 3 * 4 + 2
            case GroundRobotPosition => 4 + 4 + 10 * 4 + 2
            case RfidStatus => 4 + 4 + 4 + 2
            case RobotStatus => 4 + 4 + (1 + 1 + 4 * 2 + 2 + 3 * 4 + 1 + 2 * 2) + 2
            case JointState => 4 + 4 + 3 * 4 + 2
            case LegacyJointState => 4 + 4 + 2 * 4 + 2
            case Buff => 4 + 4 + (4 + 2 + 1) + 2
            case GimbalState => 4 + 4 + (1 + 4 * 4 + 4 * 4 + 4 + 2) + 2
    ensures forall j | 0 <= j < |p.image| :: p.image[j] == if j < |f| then f[j] else 0
  {
    hide SerialLine, Frames, WellFormed;
    var fs := Frames(SerialLine(debug), s);
    var i := PacketHasFrame(cfg, fs, p);
    f := fs[i];
    DeliveredShape(debug, s, f);
  }

  lemma DeliveredShape(debug: bool, s: Bytes, f: Bytes)
    requires f in Frames(SerialLine(debug), s)
    ensures 6 <= |f| <= 64 && |f| == f[1] as nat + 6 && (f[2] == 0x01 ==> debug)
  {
    DeliveredIsWellFormed(SerialLine(debug), s, f);
  }

  /** A frame that is sent whole and undamaged is published as exactly one packet of the kind its
      id byte stands for; debug frames in debug mode only, joint states by their length and, if old,
      by the configuration, gimbal states by both, PID frames and unknown ids not at all. */
  lemma FramePublishes(debug: bool, cfg: Config, f: Bytes)
    requires 6 <= |f| <= 64 && f[0] == 0x5A && |f| == f[1] as nat + 6
    requires Valid8(f[..4]) && Valid16(f)
    ensures var ps := Published(SerialLine(debug), cfg, f);
            && (f[2] == 0x01 ==> ps == if debug then [Packet(DebugData, ImageOf(160, f))] else [])
            && (f[2] == 0x02 ==> ps == [Packet(ImuData, ImageOf(34, f))])
            && (f[2] == 0x03 ==> ps == [Packet(RobotInfo, ImageOf(13, f))])
            && (f[2] == 0x04 ==> ps == [Packet(EventData, ImageOf(12, f))])
            && (f[2] == 0x05 ==> ps == [])
            && (f[2] == 0x06 ==> ps == [Packet(AllRobotHp, ImageOf(38, f))])
            && (f[2] == 0x07 ==> ps == [Packet(GameStatus, ImageOf(13, f))])
            && (f[2] == 0x08 ==> ps == [Packet(RobotMotion, ImageOf(22, f))])
            && (f[2] == 0x09 ==> ps == [Packet(GroundRobotPosition, ImageOf(50, f))])
            && (f[2] == 0x0A ==> ps == [Packet(RfidStatus, ImageOf(14, f))])
            && (f[2] == 0x0B ==> ps == [Packet(RobotStatus, ImageOf(39, f))])
            && (f[2] == 0x0C ==>
                  ps == if |f| == 22 then [Packet(JointState, ImageOf(22, f))]
                        else if |f| == 18 && cfg.acceptLegacyJointState then
                          [Packet(LegacyJointState, ImageOf(18, f))]
                        else [])
            && (f[2] == 0x0D ==> ps == [Packet(Buff, ImageOf(17, f))])
            && (f[2] == 0x0E ==>
                  ps == if |f| == 49 && cfg.gimbalBridge then [Packet(GimbalState, ImageOf(49, f))]
                        else [])
            && (f[2] == 0x00 || f[2] > 0x0E ==> ps == [])
  {
    hide Valid8, Valid16, Published, ImageOf, SerialLine;
    FramePublishesItsPackets(debug, cfg, f);
  }

  lemma FramePublishesItsPackets(debug: bool, cfg: Config, f: Bytes)
    requires 6 <= |f| <= 64 && f[0] == 0x5A && |f| == f[1] as nat + 6
    requires Valid8(f[..4]) && Valid16(f)
    ensures Published(SerialLine(debug), cfg, f)
         == if f[2] == 0x01 && !debug then [] else PacketsOf(cfg, f)
  {
    hide Valid8, Valid16, Frames, PacketsOf;
    var line := SerialLine(debug);
    FrameIsTaken(line, f);
    WhatOneFramePublishes(cfg, f);
    assert AllPackets(cfg, []) == [];
  }

  lemma WhatOneFramePublishes(cfg: Config, f: Bytes)
    requires |f| >= 4
    ensures AllPackets(cfg, [f]) == PacketsOf(cfg, f)
  {
    hide PacketsOf;
    assert [f][1..] == [];
    assert AllPackets(cfg, []) == [];
  }

  lemma {:induction false} PacketsOfBoth(cfg: Config, fs: seq<Bytes>, gs: seq<Bytes>)
    ensures AllPackets(cfg, fs + gs) == AllPackets(cfg, fs) + AllPackets(cfg, gs)
    decreases |fs|
  {
    hide PacketsOf;
    if |fs| == 0 {
      assert fs + gs == gs;
    } else {
      assert (fs + gs)[1..] == fs[1..] + gs;
      PacketsOfBoth(cfg, fs[1..], gs);
    }
  }

  /** Wherever a stream is cut in two, its packets are those of the first instalment followed by
      those of the bytes left waiting and the second one, in this order. */
  lemma PublishedInInstalments(line: Line, cfg: Config, s: Bytes, t: Bytes)
    ensures Published(line, cfg, s + t)
         == Published(line, cfg, s) + Published(line, cfg, Pending(line, s) + t)
  {
    hide Frames, Pending;
    ReadInInstalments(line, s, t);
    PacketsOfBoth(cfg, Frames(line, s), Frames(line, Pending(line, s) + t));
  }

  /** A frame after bytes that leave the receiver waiting for a start byte publishes, in its place,
      what it publishes alone. */
  lemma PublishedInContext(line: Line, cfg: Config, g: Bytes, f: Bytes, t: Bytes)
    requires Pending(line, g) == [] && WellFormed(line, f)
    ensures Published(line, cfg, g + f + t)
         == Published(line, cfg, g) + Published(line, cfg, f) + Published(line, cfg, t)
  {
    hide Frames, WellFormed, Published, IfWanted;
    FrameInContext(line, g, f, t);
    FrameIsTaken(line, f);
    FrameInContext(line, g, f, []);
    PublishedInInstalments(line, cfg, g + f, t);
    PublishedInInstalments(line, cfg, g, f);
    NoneBefore(f);
    NoneBefore(t);
    assert Settles(line, g + f);
  }

  lemma NoneBefore(s: Bytes)
    ensures [] + s == s
  {
  }
}
