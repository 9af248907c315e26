/** The receive thread: reads the line in whatever pieces the driver hands out, reassembles
    frames and publishes the packets they hold. */
module Receiver {
  import opened Checksums
  import opened ErrorDetection
  import opened Framing

  // ----------------------------------------------------------------- packets

  const ID_IMU: bv8 := 0x02
  const ID_ROBOT_STATE_INFO: bv8 := 0x03
  const ID_EVENT_DATA: bv8 := 0x04
  const ID_PID_DEBUG: bv8 := 0x05
  const ID_ALL_ROBOT_HP: bv8 := 0x06
  const ID_GAME_STATUS: bv8 := 0x07
  const ID_ROBOT_MOTION: bv8 := 0x08
  const ID_GROUND_ROBOT_POSITION: bv8 := 0x09
  const ID_RFID_STATUS: bv8 := 0x0A
  const ID_ROBOT_STATUS: bv8 := 0x0B
  const ID_JOINT_STATE: bv8 := 0x0C
  const ID_BUFF: bv8 := 0x0D
  const ID_GIMBAL_STATE: bv8 := 0x0E

  datatype Kind =
    | DebugData | ImuData | RobotInfo | EventData | AllRobotHp | GameStatus | RobotMotion
    | GroundRobotPosition | RfidStatus | RobotStatus | JointState | LegacyJointState | Buff
    | GimbalState
  {
    /** The size of the packed structure behind the kind. */
    function Size(): (n: nat) {
      match this
      case DebugData => 160 case ImuData => 34 case RobotInfo => 13 case EventData => 12
      case AllRobotHp => 38 case GameStatus => 13 case RobotMotion => 22
      case GroundRobotPosition => 50 case RfidStatus => 14 case RobotStatus => 39
      case JointState => 22 case LegacyJointState => 18 case Buff => 17 case GimbalState => 49
    }
  }

  /** A packet handed to its publisher: the memory image of the packed structure. */
  datatype Packet = Packet(kind: Kind, image: Bytes)

  datatype Config = Config(debug: bool, acceptLegacyJointState: bool, gimbalBridge: bool)

  /** The memory image of a structure of `size` bytes read from `data`: surplus bytes are
      dropped, missing ones are zero. */
  function ImageOf(size: nat, data: Bytes): (image: Bytes)
    ensures |image| == size
    ensures forall j | 0 <= j < size :: image[j] == if j < |data| then data[j] else 0
  {
    if |data| >= size then data[..size] else data + ZeroBytes(size - |data|)
  }

  /** `fromVector`: copies as many bytes as both sides have into a zeroed structure. */
  method FromVector(size: nat, data: Bytes) returns (packet: array<bv8>)
    ensures fresh(packet) && packet[..] == ImageOf(size, data)
  {
    packet := new bv8[size](_ => 0);
    var copySize := if |data| < size then |data| else size;
    for i := 0 to copySize
      invariant packet[..i] == data[..i]
      invariant forall j | i <= j < size :: packet[j] == 0
    {
      packet[i] := data[i];
    }
  }

  datatype Route = Ignore | PublishAs(kind: Kind)

  /** The switch over the frame id, given also the length byte of the header. */
  function RouteOf(cfg: Config, id: bv8, len: nat): (r: Route) {
    if id == ID_DEBUG then PublishAs(DebugData)
    else if id == ID_IMU then PublishAs(ImuData)
    else if id == ID_ROBOT_STATE_INFO then PublishAs(RobotInfo)
    else if id == ID_EVENT_DATA then PublishAs(EventData)
    else if id == ID_PID_DEBUG then Ignore
    else if id == ID_ALL_ROBOT_HP then PublishAs(AllRobotHp)
    else if id == ID_GAME_STATUS then PublishAs(GameStatus)
    else if id == ID_ROBOT_MOTION then PublishAs(RobotMotion)
    else if id == ID_GROUND_ROBOT_POSITION then PublishAs(GroundRobotPosition)
    else if id == ID_RFID_STATUS then PublishAs(RfidStatus)
    else if id == ID_ROBOT_STATUS then PublishAs(RobotStatus)
    else if id == ID_JOINT_STATE then
      if len == JointState.Size() - 4 - 2 then PublishAs(JointState)
      else if cfg.acceptLegacyJointState && len == LegacyJointState.Size() - 4 - 2 then
        PublishAs(LegacyJointState)
      else Ignore
    else if id == ID_BUFF then PublishAs(Buff)
    else if id == ID_GIMBAL_STATE then
      if len != GimbalState.Size() - 4 - 2 || !cfg.gimbalBridge then Ignore
      else PublishAs(GimbalState)
    else Ignore
  }

  function Dispatch(route: Route, data: Bytes): (ps: seq<Packet>) {
    match route
    case Ignore => []
    case PublishAs(kind) => [Packet(kind, ImageOf(kind.Size(), data))]
  }

  /** The packets a delivered frame stands for. */
  function PacketsOf(cfg: Config, f: Bytes): (ps: seq<Packet>)
    requires |f| >= 4
  {
    Dispatch(RouteOf(cfg, f[2], f[1] as nat), f)
  }

  function AllPackets(cfg: Config, fs: seq<Bytes>): (ps: seq<Packet>) {
    if |fs| == 0 then []
    else (if |fs[0]| >= 4 then PacketsOf(cfg, fs[0]) else []) + AllPackets(cfg, fs[1..])
  }

  lemma PaddedImage(size: nat, data: Bytes, n: nat)
    ensures ImageOf(size, data + ZeroBytes(n)) == ImageOf(size, data)
  {
  }

  /** Zero bytes after the frame reach no publisher: the packet is the same with and without
      them, whatever the id. */
  lemma PaddingIsInvisible(route: Route, f: Bytes, n: nat)
    ensures Dispatch(route, f + ZeroBytes(n)) == Dispatch(route, f)
  {
    if route.PublishAs? {
      PaddedImage(route.kind.Size(), f, n);
    }
  }

  // --------------------------------------------------------------- the driver

  /** The serial port. `incoming` is everything that ever arrives on the line. A read blocks
      when nothing is left; that is reported as zero bytes read and never happens otherwise. */
  class SerialPort {
    const incoming: Bytes
    var pos: nat

    ghost predicate Valid()
      reads this
    {
      pos <= |incoming|
    }

    constructor (bytes: Bytes)
      ensures Valid() && incoming == bytes && pos == 0
    {
      incoming, pos := bytes, 0;
    }

    /** Reads into a zeroed buffer of `n` bytes: the driver chooses how many bytes, at least
        one, it puts at the front. */
    method Receive(n: nat) returns (buf: Bytes, got: nat)
      requires Valid() && n > 0
      modifies this
      ensures Valid() && got <= n && pos == old(pos) + got
      ensures got == 0 <==> old(pos) == |incoming|
      ensures buf == incoming[old(pos)..pos] + ZeroBytes(n - got)
    {
      var available := |incoming| - pos;
      if available == 0 {
        got := 0;
      } else {
        got :| 1 <= got <= n && got <= available;
      }
      buf := incoming[pos..pos + got] + ZeroBytes(n - got);
      pos := pos + got;
    }

    /** A read that the driver does not split. */
    method ReceiveWhole(n: nat) returns (buf: Bytes, got: nat)
      requires Valid() && n > 0
      modifies this
      ensures Valid() && pos == old(pos) + got
      ensures got == if old(pos) + n <= |incoming| then n else 0
      ensures got == n ==> buf == incoming[old(pos)..pos]
    {
      if pos + n <= |incoming| {
        buf, got, pos := incoming[pos..pos + n], n, pos + n;
      } else {
        buf, got := [], 0;
      }
    }
  }

  // ------------------------------------------------------------- reassembly

  lemma Inserted(s: Bytes, sum: nat, got: nat, buf: Bytes, more: Bytes, m: nat)
    requires sum + got <= |s| && sum <= |buf| && got <= m
    requires buf == s[..sum] + ZeroBytes(|buf| - sum)
    requires more == s[sum..sum + got] + ZeroBytes(m - got)
    ensures buf[..sum] + more + buf[sum..] == s[..sum + got] + ZeroBytes(|buf| + m - sum - got)
  {
  }

  /** Reads `len` payload bytes and the two-byte trailer, in as many pieces as it takes. Every
      later piece is inserted, padding included, into a buffer that already has its full size,
      so a fragmented read leaves zero bytes behind the payload. */
  method ReadPayload(port: SerialPort, len: nat) returns (complete: bool, data: Bytes)
    requires port.Valid()
    modifies port
    ensures port.Valid()
    ensures complete <==> old(port.pos) + len + 2 <= |port.incoming|
    ensures complete ==>
              && port.pos == old(port.pos) + len + 2 && |data| >= len + 2
              && data == port.incoming[old(port.pos)..port.pos] + ZeroBytes(|data| - len - 2)
  {
    ghost var p, s := port.pos, port.incoming[port.pos..];
    var got;
    data, got := port.Receive(len + 2);
    if got == 0 {
      return false, data;
    }
    var sum, remain := got, len + 2 - got;
    assert data == s[..sum] + ZeroBytes(|data| - sum);
    while remain > 0
      invariant port.Valid() && sum + remain == len + 2 && 0 <= remain && port.pos == p + sum
      invariant sum <= |s| && |data| >= len + 2
      invariant data == s[..sum] + ZeroBytes(|data| - sum)
      decreases remain
    {
      var more;
      more, got := port.Receive(remain);
      if got == 0 {
        return false, data;
      }
      assert more == s[sum..sum + got] + ZeroBytes(remain - got);
      Inserted(s, sum, got, data, more, remain);
      data := data[..sum] + more + data[sum..];
      sum, remain := sum + got, remain - got;
    }
    complete := true;
    assert s[..len + 2] == port.incoming[p..port.pos];
  }

  // ---------------------------------------------------------- the receive loop

  /** The header buffer with the start byte in front, checked as a packed structure. */
  method HeaderPasses(h: Bytes) returns (ok: bool)
    requires |h| == 4
    ensures ok <==> Valid8(h)
  {
    var header := FromVector(4, h);
    assert header[..4] == header[..] == h;
    ok := VerifyCrc8CheckSum(header, 4);
  }

  /** What follows once a header is accepted: payload, debug filter, frame check, publishing. */
  method ReceiveFrame(port: SerialPort, cfg: Config, header: Bytes, ghost s: Bytes)
    returns (blocked: bool, packets: seq<Packet>)
    requires port.Valid() && port.pos >= 4 && s == port.incoming[port.pos - 4..]
    requires header == s[..4]
    modifies port
    ensures port.Valid()
    ensures var n := header[1] as nat + 6;
            && (blocked <==> |s| < n)
            && (!blocked ==> port.pos == old(port.pos) - 4 + n)
            && packets == if !blocked && (cfg.debug || header[2] != ID_DEBUG) && Valid16(s[..n])
                          then PacketsOf(cfg, s[..n]) else []
  {
    hide Valid16, Valid8;
    packets := [];
    var len := header[1] as nat;
    var complete, data := ReadPayload(port, len);
    blocked := !complete;
    if complete {
      ghost var f, pad := s[..len + 6], |data| - len - 2;
      data := header + data;
      assert data == f + ZeroBytes(pad);
      if cfg.debug || header[2] != ID_DEBUG {
        packets := CheckAndPublish(cfg, header[2], len, f, pad, data);
      }
    }
  }

  method CheckAndPublish(cfg: Config, id: bv8, len: nat, ghost f: Bytes, ghost pad: nat, data: Bytes)
    returns (packets: seq<Packet>)
    requires |f| > 2 && data == f + ZeroBytes(pad)
    ensures packets == if Valid16(f) then Dispatch(RouteOf(cfg, id, len), f) else []
  {
    packets := [];
    ZeroTailKeepsVerdict16(f, pad);
    var frameOk := VerifyCrc16Vector(data);
    if frameOk {
      var route := RouteOf(cfg, id, len);
      PaddingIsInvisible(route, f, pad);
      packets := PublishPacket(route, data);
    }
  }

  /** The branch of the switch that a frame takes. */
  method PublishPacket(route: Route, data: Bytes) returns (packets: seq<Packet>)
    ensures packets == Dispatch(route, data)
  {
    packets := [];
    if route.PublishAs? {
      var packet := FromVector(route.kind.Size(), data);
      packets := [Packet(route.kind, packet[..])];
    }
  }

  /** Reads one byte and, if it is a start byte, the other three bytes of a header. */
  method ReadHeader(port: SerialPort, ghost s: Bytes) returns (blocked: bool, header: Bytes)
    requires port.Valid() && s == port.incoming[port.pos..]
    modifies port
    ensures port.Valid()
    ensures blocked <==> |s| == 0 || (s[0] == SOF && |s| < 4)
    ensures !blocked ==> port.pos == old(port.pos) + if s[0] == SOF then 4 else 1
    ensures !blocked ==> header == if s[0] == SOF then s[..4] else []
  {
    var sof, got := port.Receive(1);
    if got == 0 {
      return true, [];
    }
    assert sof[0] == s[0];
    if sof[0] != SOF {
      return false, [];
    }
    var rest;
    rest, got := port.ReceiveWhole(3);
    if got == 0 {
      return true, [];
    }
    blocked, header := false, [sof[0]] + rest;
  }

  /** One pass of the loop over what `s` holds, whichever way the driver splits the reads:
      it blocks, drops and publishes exactly as the framing prescribes. */
  method ReceivePass(port: SerialPort, cfg: Config, ghost s: Bytes)
    returns (blocked: bool, packets: seq<Packet>)
    requires port.Valid() && s == port.incoming[port.pos..]
    modifies port
    ensures port.Valid()
    ensures var p := OnePass(SerialLine(cfg.debug), s);
            && (blocked <==> p.Wait?)
            && (!blocked ==> port.pos == old(port.pos) + p.n)
            && packets == if p.Deliver? then PacketsOf(cfg, s[..p.n]) else []
  {
    hide Valid16, Valid8, PacketsOf;
    packets := [];
    var header;
    blocked, header := ReadHeader(port, s);
    if !blocked && |header| == 4 {
      var headerOk := HeaderPasses(header);
      if headerOk && header[1] as nat <= MAX_LEN {
        blocked, packets := ReceiveFrame(port, cfg, header, s);
      }
    }
  }

  /** The packets published from a stream. */
  function Published(line: Line, cfg: Config, s: Bytes): (ps: seq<Packet>) {
    AllPackets(cfg, Frames(line, s))
  }

  /** Where a published packet came from. */
  lemma {:induction false} PacketHasFrame(cfg: Config, fs: seq<Bytes>, p: Packet) returns (i: nat)
    requires p in AllPackets(cfg, fs)
    ensures i < |fs| && |fs[i]| >= 4 && p in PacketsOf(cfg, fs[i])
    decreases |fs|
  {
    hide PacketsOf;
    if |fs[0]| >= 4 && p in PacketsOf(cfg, fs[0]) {
      i := 0;
    } else {
      i := PacketHasFrame(cfg, fs[1..], p);
      i := i + 1;
    }
  }

  /** The length limit cuts off every debug packet: one that is published comes from a delivered
      frame with the debug id, and has only zeros from the 65th byte of its 160 on. */
  lemma DebugPacketsAreCut(line: Line, cfg: Config, s: Bytes, p: Packet) returns (f: Bytes)
    requires p in Published(line, cfg, s) && p.kind == DebugData
    ensures f in Frames(line, s) && |f| > 2 && f[2] == ID_DEBUG && line.debug
    ensures |p.image| == 160 && forall j | 0 <= j < 160 :: p.image[j] == if j < |f| then f[j] else 0
    ensures forall j | 64 <= j < 160 :: p.image[j] == 0
  {
    var fs := Frames(line, s);
    var i := PacketHasFrame(cfg, fs, p);
    f := fs[i];
    DeliveredIsWellFormed(line, s, f);
  }

  lemma PublishedStepwise(line: Line, cfg: Config, s: Bytes, ps: seq<Packet>, rest: Bytes)
    requires var p := OnePass(line, s);
             && ps == (if p.Deliver? then PacketsOf(cfg, s[..p.n]) else [])
             && rest == (if p.Wait? then [] else s[p.n..])
    ensures Published(line, cfg, s) == ps + Published(line, cfg, rest)
  {
    var p := OnePass(line, s);
    if p.Deliver? {
      var fs := Frames(line, rest);
      assert ([s[..p.n]] + fs)[1..] == fs;
    }
  }

  /** A pass, stated about the packets still to be published. */
  method ReceiveStep(port: SerialPort, cfg: Config, ghost line: Line, ghost s: Bytes)
    returns (blocked: bool, packets: seq<Packet>, ghost rest: Bytes)
    requires port.Valid() && s == port.incoming[port.pos..] && line == SerialLine(cfg.debug)
    modifies port
    ensures port.Valid()
    ensures Published(line, cfg, s) == packets + Published(line, cfg, rest)
    ensures if blocked then rest == [] else rest == port.incoming[port.pos..] && |rest| < |s|
  {
    blocked, packets := ReceivePass(port, cfg, s);
    rest := if blocked then [] else s[OnePass(line, s).n..];
    PublishedStepwise(line, cfg, s, packets, rest);
  }

  /** The receive thread on a whole stream: however the driver splits the reads, the packets
      published are those of the frames in the stream, in order. */
  method ReceiveData(port: SerialPort, cfg: Config) returns (published: seq<Packet>)
    requires port.Valid()
    modifies port
    ensures published
         == Published(SerialLine(cfg.debug), cfg, port.incoming[old(port.pos)..])
  {
    hide SerialLine;
    ghost var line := SerialLine(cfg.debug);
    ghost var s := port.incoming[port.pos..];
    ghost var all := Published(line, cfg, s);
    published := [];
    var blocked := false;
    while !blocked
      invariant port.Valid()
      invariant if blocked then s == [] else s == port.incoming[port.pos..]
      invariant all == published + Published(line, cfg, s)
      decreases !blocked, |s|
    {
      var packets;
      ghost var rest;
      blocked, packets, rest := ReceiveStep(port, cfg, line, s);
      assert published + (packets + Published(line, cfg, rest))
          == (published + packets) + Published(line, cfg, rest);
      published, s := published + packets, rest;
    }
    assert Published(line, cfg, []) == [];
  }
}
