/** The frame format on the serial line and the reading discipline of the receive thread,
    as a function from the byte stream to the frames it delivers. */
module Framing {
  import opened Checksums
  import opened CrcTheory
  import opened Gf2
  import opened Words

  const SOF: bv8 := 0x5A
  const ID_DEBUG: bv8 := 0x01

  /** Payload lengths above this are refused before any payload is read. */
  const MAX_LEN: nat := 58

  type Bytes = seq<bv8>

  /** How one end of the line reads: in debug mode or not, and which headers and which
      whole frames it accepts. */
  datatype Line = Line(debug: bool, headerOk: Bytes -> bool, frameOk: Bytes -> bool)

  /** The line as the driver reads it. */
  function SerialLine(debug: bool): (line: Line) {
    Line(debug, s => Valid8(s), s => Valid16(s))
  }

  /** A frame as either end of the line builds it. */
  predicate WellFormed(line: Line, f: Bytes) {
    && |f| >= 6 && f[0] == SOF
    && |f| == f[1] as nat + 6 && f[1] as nat <= MAX_LEN
    && line.headerOk(f[..4]) && line.frameOk(f)
  }

  /** Whether the receiver hands a frame on: debug frames only in debug mode. */
  predicate Wanted(line: Line, f: Bytes) {
    |f| > 2 && f[2] == ID_DEBUG ==> line.debug
  }

  /** What one pass of the receive loop makes of the bytes that are waiting: it waits for
      more, drops a number of bytes, or delivers a frame of that many bytes. */
  datatype Pass = Wait | Drop(n: nat) | Deliver(n: nat)

  function OnePass(line: Line, s: Bytes): (p: Pass)
    ensures !p.Wait? ==> 0 < p.n <= |s|
    ensures p.Deliver? ==> p.n >= 6
  {
    if |s| == 0 then Wait
    else if s[0] != SOF then Drop(1)
    else if |s| < 4 then Wait
    else if !line.headerOk(s[..4]) then Drop(4)
    else if s[1] as nat > MAX_LEN then Drop(4)
    else
      var n := s[1] as nat + 6;
      if |s| < n then Wait
      else if !Wanted(line, s) || !line.frameOk(s[..n]) then Drop(n)
      else Deliver(n)
  }

  /** The frames delivered from a stream, in order. */
  function Frames(line: Line, s: Bytes): (fs: seq<Bytes>)
    decreases |s|
  {
    match OnePass(line, s)
    case Wait => []
    case Drop(n) => Frames(line, s[n..])
    case Deliver(n) => [s[..n]] + Frames(line, s[n..])
  }

  /** The bytes still waiting when the receiver can do nothing more. */
  function Pending(line: Line, s: Bytes): (r: Bytes)
    decreases |s|
  {
    match OnePass(line, s)
    case Wait => s
    case Drop(n) => Pending(line, s[n..])
    case Deliver(n) => Pending(line, s[n..])
  }

  // ----------------------------------------------------------- arrival in pieces

  lemma PrefixOfSum(s: Bytes, t: Bytes, n: nat)
    requires n <= |s|
    ensures (s + t)[..n] == s[..n]
  {
  }

  lemma PassIgnoresLater(line: Line, s: Bytes, t: Bytes)
    requires !OnePass(line, s).Wait?
    ensures OnePass(line, s + t) == OnePass(line, s)
  {
    if s[0] == SOF {
      PrefixOfSum(s, t, 4);
      var n := s[1] as nat + 6;
      if n <= |s| {
        PrefixOfSum(s, t, n);
      }
    }
  }

  /** Reading a stream in two instalments, wherever it is cut, delivers what reading it at
      once delivers: the bytes left waiting simply precede the second instalment. */
  lemma {:induction false} ReadInInstalments(line: Line, s: Bytes, t: Bytes)
    ensures Frames(line, s + t) == Frames(line, s) + Frames(line, Pending(line, s) + t)
    ensures Pending(line, s + t) == Pending(line, Pending(line, s) + t)
    decreases |s|
  {
    var p := OnePass(line, s);
    if !p.Wait? {
      PassIgnoresLater(line, s, t);
      assert (s + t)[p.n..] == s[p.n..] + t && (s + t)[..p.n] == s[..p.n];
      ReadInInstalments(line, s[p.n..], t);
    }
  }

  /** Whatever has been delivered stays delivered when more bytes arrive. */
  lemma DeliveriesAreFinal(line: Line, s: Bytes, t: Bytes)
    ensures Frames(line, s) <= Frames(line, s + t)
  {
    ReadInInstalments(line, s, t);
  }

  // ------------------------------------------------------ printing, then parsing

  predicate Noise(g: Bytes) {
    SOF !in g
  }

  lemma {:induction false} NoiseIsDropped(line: Line, g: Bytes)
    requires Noise(g)
    ensures Frames(line, g) == [] && Pending(line, g) == []
    decreases |g|
  {
    if |g| > 0 {
      assert g[0] in g;
      NoiseIsDropped(line, g[1..]);
    }
  }

  lemma WholeSlice(f: Bytes)
    ensures f[..|f|] == f && f[|f|..] == []
  {
  }

  lemma FrameIsTaken(line: Line, f: Bytes)
    requires WellFormed(line, f)
    ensures Frames(line, f) == IfWanted(line, f)
    ensures Pending(line, f) == []
  {
    WholeSlice(f);
    assert Frames(line, []) == [] && Pending(line, []) == [];
  }

  /** A stream in which each frame is preceded by a gap and a last gap closes the stream. */
  function Weave(gaps: seq<Bytes>, fs: seq<Bytes>): (s: Bytes)
    requires |gaps| == |fs| + 1
    decreases |fs|
  {
    if |fs| == 0 then gaps[0] else gaps[0] + fs[0] + Weave(gaps[1..], fs[1..])
  }

  function IfWanted(line: Line, f: Bytes): (ws: seq<Bytes>) {
    if Wanted(line, f) then [f] else []
  }

  function KeepWanted(line: Line, fs: seq<Bytes>): (ws: seq<Bytes>) {
    if |fs| == 0 then [] else IfWanted(line, fs[0]) + KeepWanted(line, fs[1..])
  }

  predicate AllNoise(gaps: seq<Bytes>) {
    forall i | 0 <= i < |gaps| :: Noise(gaps[i])
  }

  predicate AllWellFormed(line: Line, fs: seq<Bytes>) {
    forall i | 0 <= i < |fs| :: WellFormed(line, fs[i])
  }

  lemma FrameAfterNoise(line: Line, g: Bytes, f: Bytes, rest: Bytes, s: Bytes)
    requires Noise(g) && WellFormed(line, f) && s == g + f + rest
    ensures Frames(line, s) == IfWanted(line, f) + Frames(line, rest)
    ensures Pending(line, s) == Pending(line, rest)
  {
    NoiseIsDropped(line, g);
    FrameIsTaken(line, f);
    AfterEmpty(line, g, f);
    AfterEmpty(line, g + f, rest);
  }

  /** Any sequence of frames, each preceded by arbitrary noise without a start byte, is
      received as exactly that sequence, whatever the payloads contain. */
  lemma {:induction false} FramesSurviveTheLine(line: Line, gaps: seq<Bytes>, fs: seq<Bytes>)
    requires |gaps| == |fs| + 1 && AllNoise(gaps) && AllWellFormed(line, fs)
    ensures Frames(line, Weave(gaps, fs)) == KeepWanted(line, fs)
    ensures Pending(line, Weave(gaps, fs)) == []
    decreases |fs|
  {
    if |fs| == 0 {
      NoiseIsDropped(line, gaps[0]);
    } else {
      FramesSurviveTheLine(line, gaps[1..], fs[1..]);
      FrameAfterNoise(line, gaps[0], fs[0], Weave(gaps[1..], fs[1..]), Weave(gaps, fs));
    }
  }

  lemma AfterEmpty(line: Line, s: Bytes, t: Bytes)
    requires Pending(line, s) == []
    ensures Frames(line, s + t) == Frames(line, s) + Frames(line, t)
    ensures Pending(line, s + t) == Pending(line, t)
  {
    ReadInInstalments(line, s, t);
    assert [] + t == t;
  }

  // ------------------------------------------------------------ no inventions

  /** The bytes dropped before, between and after the delivered frames. */
  function Gaps(line: Line, s: Bytes): (gaps: seq<Bytes>)
    ensures |gaps| > 0
    decreases |s|
  {
    match OnePass(line, s)
    case Wait => [s]
    case Drop(n) =>
      var rest := Gaps(line, s[n..]);
      [s[..n] + rest[0]] + rest[1..]
    case Deliver(n) => [[]] + Gaps(line, s[n..])
  }

  /** For any stream whatever, the delivered frames are disjoint slices of it in order: the
      dropped bytes and the frames, woven together, are the stream. */
  lemma {:induction false} FramesAreSlices(line: Line, s: Bytes)
    ensures |Gaps(line, s)| == |Frames(line, s)| + 1
    ensures Weave(Gaps(line, s), Frames(line, s)) == s
    decreases |s|
  {
    match OnePass(line, s)
    case Wait =>
    case Drop(n) =>
      FramesAreSlices(line, s[n..]);
      LongerFirstGap(s[..n], Gaps(line, s[n..]), Frames(line, s[n..]));
      Rejoin(s, n);
    case Deliver(n) =>
      FramesAreSlices(line, s[n..]);
      EmptyFirstGap(s[..n], Gaps(line, s[n..]), Frames(line, s[n..]));
      Rejoin(s, n);
  }

  lemma Rejoin(s: Bytes, n: nat)
    requires n <= |s|
    ensures s[..n] + s[n..] == s
  {
  }

  lemma EmptyFirstGap(f: Bytes, gaps: seq<Bytes>, fs: seq<Bytes>)
    requires |gaps| == |fs| + 1
    ensures Weave([[]] + gaps, [f] + fs) == f + Weave(gaps, fs)
  {
    assert ([[]] + gaps)[1..] == gaps && ([f] + fs)[1..] == fs;
    assert [] + f == f;
  }

  lemma LongerFirstGap(g: Bytes, gaps: seq<Bytes>, fs: seq<Bytes>)
    requires |gaps| == |fs| + 1
    ensures Weave([g + gaps[0]] + gaps[1..], fs) == g + Weave(gaps, fs)
  {
    if |fs| > 0 {
      assert ([g + gaps[0]] + gaps[1..])[1..] == gaps[1..];
      var rest := Weave(gaps[1..], fs[1..]);
      assert (g + gaps[0]) + fs[0] + rest == g + (gaps[0] + fs[0] + rest);
    }
  }

  /** Everything delivered, from any stream, is a well-formed frame of at most 64 bytes. */
  lemma {:induction false} DeliveredIsWellFormed(line: Line, s: Bytes, f: Bytes)
    requires f in Frames(line, s)
    ensures WellFormed(line, f) && Wanted(line, f) && |f| <= 64
    decreases |s|
  {
    match OnePass(line, s)
    case Wait =>
    case Drop(n) => DeliveredIsWellFormed(line, s[n..], f);
    case Deliver(n) =>
      if f == s[..n] {
        assert s[..n][..4] == s[..4];
      } else {
        DeliveredIsWellFormed(line, s[n..], f);
      }
  }

  // ------------------------------------------------------- resynchronisation

  lemma {:induction false} PendingIsShort(line: Line, s: Bytes)
    ensures |Pending(line, s)| < 64
    ensures OnePass(line, Pending(line, s)).Wait?
    decreases |s|
  {
    var p := OnePass(line, s);
    if !p.Wait? {
      PendingIsShort(line, s[p.n..]);
    }
  }

  /** One pass over pending bytes followed by enough others uses up all that was pending. */
  lemma PendingIsUsedUp(line: Line, r: Bytes, q: Bytes)
    requires |r| > 0 && OnePass(line, r).Wait? && |q| >= 63
    ensures var p := OnePass(line, r + q); !p.Wait? && |r| <= p.n
  {
    if |r| >= 4 {
      assert (r + q)[..4] == r[..4];
    }
  }

  /** After any bytes whatever, 63 bytes without a start byte bring the receiver back into
      step: it is waiting for a start byte, and everything that follows is read afresh. */
  lemma QuietResynchronises(line: Line, g: Bytes, q: Bytes, t: Bytes)
    requires Noise(q) && |q| >= 63
    ensures Pending(line, g + q) == []
    ensures Frames(line, g + q + t) == Frames(line, g + q) + Frames(line, t)
  {
    var r := Pending(line, g);
    ReadInInstalments(line, g, q);
    PendingIsShort(line, g);
    if |r| > 0 {
      PendingIsUsedUp(line, r, q);
      var n := OnePass(line, r + q).n;
      var rest := (r + q)[n..];
      assert rest == q[n - |r|..];
      assert Noise(rest);
      NoiseIsDropped(line, rest);
    } else {
      assert r + q == q;
      NoiseIsDropped(line, q);
    }
    AfterEmpty(line, g + q, t);
  }

  /** Fewer are not enough: after a start byte, 62 quiet bytes that begin with a header of the
      greatest length are all still waiting. */
  lemma QuietIsTight(line: Line, q: Bytes)
    requires Noise(q) && |q| == 62 && q[0] as nat == MAX_LEN && line.headerOk([SOF] + q[..3])
    ensures Pending(line, [SOF] + q) == [SOF] + q
  {
    var s := [SOF] + q;
    assert s[..4] == [SOF] + q[..3] && s[1] == q[0];
  }

  /** On the serial line there are such bytes. */
  lemma SixtyTwoAreTooFew(debug: bool)
    ensures var q := [58, 0, 9] + ZeroBytes(59);
            Noise(q) && |q| == 62 && Pending(SerialLine(debug), [SOF] + q) == [SOF] + q
  {
    hide Valid8, Pending;
    var q: Bytes := [58, 0, 9] + ZeroBytes(59);
    LongestHeader();
    assert [SOF] + q[..3] == [SOF, 58, 0, 9];
    QuietIsTight(SerialLine(debug), q);
  }

  lemma LongestHeader()
    ensures Valid8([SOF, 58, 0, 9])
  {
    hide ByteBits, Rem;
    InitialRegisters();
    HeaderSteps();
    assert BitsOf([]) == [];
    NothingRead();
    OneMoreByte8(Ones(8), [], 0xff, SOF, 0x90, [SOF]);
    OneMoreByte8(Ones(8), [SOF], 0x90, 58, 0xd1, [SOF, 58]);
    OneMoreByte8(Ones(8), [SOF, 58], 0xd1, 0, 0x09, [SOF, 58, 0]);
    Trailer8([SOF, 58, 0], 0x09, 0x09);
    assert [SOF, 58, 0] + [0x09] == [SOF, 58, 0, 9];
  }

  lemma NothingRead()
    ensures Rem(G8, Ones(8), []) == Ones(8)
  {
  }

  lemma HeaderSteps()
    ensures ByteStep8(0xff, SOF) == 0x90 && ByteStep8(0x90, 58) == 0xd1
    ensures ByteStep8(0xd1, 0) == 0x09
  {
  }

  // -------------------------------------------- which gaps a frame survives, exactly

  /** The receiver begins a pass of its loop at position `k` of the stream. */
  predicate PassStartsAt(line: Line, s: Bytes, k: nat)
    decreases |s|
  {
    || k == 0
    || (!OnePass(line, s).Wait? && OnePass(line, s).n <= k
        && PassStartsAt(line, s[OnePass(line, s).n..], k - OnePass(line, s).n))
  }

  /** After these bytes the receiver waits for a start byte and nothing else. */
  predicate Settles(line: Line, gap: Bytes) {
    Pending(line, gap) == []
  }

  /** A pass that waits for more bytes uses more than there are as soon as they arrive. */
  lemma WaitingPassRunsOver(line: Line, g: Bytes, t: Bytes)
    requires OnePass(line, g).Wait? && |g| > 0
    ensures !OnePass(line, g + t).Wait? ==> OnePass(line, g + t).n > |g|
  {
    if |g| >= 4 {
      PrefixOfSum(g, t, 4);
    }
  }

  lemma RestOfSum(s: Bytes, t: Bytes, n: nat)
    requires n <= |s|
    ensures (s + t)[n..] == s[n..] + t
  {
  }

  /** What follows any bytes is read from its beginning exactly if those bytes settle. */
  lemma {:induction false} StartsAfterIff(line: Line, g: Bytes, t: Bytes)
    ensures PassStartsAt(line, g + t, |g|) <==> Settles(line, g)
    decreases |g|
  {
    hide OnePass;
    var p := OnePass(line, g);
    if |g| == 0 {
      EmptySettles(line);
    } else if p.Wait? {
      WaitingPassRunsOver(line, g, t);
    } else {
      PassIgnoresLater(line, g, t);
      RestOfSum(g, t, p.n);
      StartsAfterIff(line, g[p.n..], t);
    }
  }

  lemma EmptySettles(line: Line)
    ensures Settles(line, []) && Frames(line, []) == []
  {
  }

  lemma {:induction false} StartsBeyondIff(line: Line, g: Bytes, t: Bytes, k: nat)
    requires Settles(line, g)
    ensures PassStartsAt(line, g + t, |g| + k) <==> PassStartsAt(line, t, k)
    decreases |g|
  {
    hide OnePass;
    var p := OnePass(line, g);
    if |g| == 0 {
      assert g + t == t;
    } else {
      PassIgnoresLater(line, g, t);
      RestOfSum(g, t, p.n);
      StartsBeyondIff(line, g[p.n..], t, k);
    }
  }

  /** A frame after bytes that settle is received, whatever comes before and after it. */
  lemma FrameInContext(line: Line, g: Bytes, f: Bytes, t: Bytes)
    requires Settles(line, g) && WellFormed(line, f)
    ensures Frames(line, g + f + t) == Frames(line, g) + IfWanted(line, f) + Frames(line, t)
    ensures Pending(line, g + f + t) == Pending(line, t) && Settles(line, g + f)
  {
    hide WellFormed, IfWanted;
    FrameIsTaken(line, f);
    AfterEmpty(line, g, f);
    AfterEmpty(line, g + f, t);
  }

  /** Where frame `i` begins in the woven stream. */
  function Offset(gaps: seq<Bytes>, fs: seq<Bytes>, i: nat): (k: nat)
    requires |gaps| == |fs| + 1 && i < |fs|
    decreases i
  {
    if i == 0 then |gaps[0]| else |gaps[0]| + |fs[0]| + Offset(gaps[1..], fs[1..], i - 1)
  }

  /** The receiver begins a pass at every frame. */
  predicate FramesStart(line: Line, gaps: seq<Bytes>, fs: seq<Bytes>)
    requires |gaps| == |fs| + 1
  {
    forall i: nat | i < |fs| :: PassStartsAt(line, Weave(gaps, fs), Offset(gaps, fs, i))
  }

  /** Every gap before a frame settles. */
  predicate GapsSettle(line: Line, gaps: seq<Bytes>) {
    forall i | 0 <= i < |gaps| - 1 :: Settles(line, gaps[i])
  }

  /** The frames sent, between the frames that happen to be in the gaps. */
  function Woven(line: Line, gaps: seq<Bytes>, fs: seq<Bytes>): (ws: seq<Bytes>)
    requires |gaps| == |fs| + 1
    decreases |fs|
  {
    if |fs| == 0 then Frames(line, gaps[0])
    else Frames(line, gaps[0]) + IfWanted(line, fs[0]) + Woven(line, gaps[1..], fs[1..])
  }

  lemma FirstFrameStartsIff(line: Line, gaps: seq<Bytes>, fs: seq<Bytes>)
    requires |gaps| == |fs| + 1 && |fs| > 0
    ensures PassStartsAt(line, Weave(gaps, fs), Offset(gaps, fs, 0)) <==> Settles(line, gaps[0])
  {
    hide PassStartsAt, Settles;
    var rest := Weave(gaps[1..], fs[1..]);
    assert gaps[0] + fs[0] + rest == gaps[0] + (fs[0] + rest);
    StartsAfterIff(line, gaps[0], fs[0] + rest);
  }

  /** Frame `i` starts a pass exactly if it does so without the first gap and the first frame. */
  predicate SameStart(line: Line, gaps: seq<Bytes>, fs: seq<Bytes>, i: nat)
    requires |gaps| == |fs| + 1 && 0 < i < |fs|
  {
    PassStartsAt(line, Weave(gaps, fs), Offset(gaps, fs, i))
    <==> PassStartsAt(line, Weave(gaps[1..], fs[1..]), Offset(gaps[1..], fs[1..], i - 1))
  }

  lemma LaterFrameStartsIff(line: Line, gaps: seq<Bytes>, fs: seq<Bytes>, i: nat)
    requires |gaps| == |fs| + 1 && 0 < i < |fs|
    requires Settles(line, gaps[0]) && WellFormed(line, fs[0])
    ensures SameStart(line, gaps, fs, i)
  {
    hide PassStartsAt, Settles, WellFormed, IfWanted;
    var g, rest := gaps[0] + fs[0], Weave(gaps[1..], fs[1..]);
    FrameInContext(line, gaps[0], fs[0], []);
    StartsBeyondIff(line, g, rest, Offset(gaps[1..], fs[1..], i - 1));
  }

  /** In any stream woven of well-formed frames and arbitrary gaps, the receiver reads every frame
      from its beginning exactly if every gap before a frame settles. */
  lemma {:induction false} FramesStartIff(line: Line, gaps: seq<Bytes>, fs: seq<Bytes>)
    requires |gaps| == |fs| + 1 && AllWellFormed(line, fs)
    ensures FramesStart(line, gaps, fs) <==> GapsSettle(line, gaps)
    decreases |fs|
  {
    if |fs| > 0 {
      hide PassStartsAt, Settles, WellFormed, Weave, Offset;
      FirstFrameStartsIff(line, gaps, fs);
      if Settles(line, gaps[0]) {
        var gs, hs := gaps[1..], fs[1..];
        FramesStartIff(line, gs, hs);
        forall i: nat | 0 < i < |fs| ensures SameStart(line, gaps, fs, i) {
          LaterFrameStartsIff(line, gaps, fs, i);
        }
        ShiftStarts(line, gaps, fs);
        ShiftGaps(line, gaps);
      }
    }
  }

  lemma ShiftStarts(line: Line, gaps: seq<Bytes>, fs: seq<Bytes>)
    requires |gaps| == |fs| + 1 && |fs| > 0
    requires PassStartsAt(line, Weave(gaps, fs), Offset(gaps, fs, 0))
    requires forall i: nat | 0 < i < |fs| :: SameStart(line, gaps, fs, i)
    ensures FramesStart(line, gaps, fs) <==> FramesStart(line, gaps[1..], fs[1..])
  {
    hide PassStartsAt, Weave, Offset;
    if FramesStart(line, gaps, fs) {
      forall j: nat | j < |fs| - 1
        ensures PassStartsAt(line, Weave(gaps[1..], fs[1..]), Offset(gaps[1..], fs[1..], j))
      {
        assert PassStartsAt(line, Weave(gaps, fs), Offset(gaps, fs, j + 1));
        assert SameStart(line, gaps, fs, j + 1);
      }
    }
    if FramesStart(line, gaps[1..], fs[1..]) {
      forall i: nat | i < |fs| ensures PassStartsAt(line, Weave(gaps, fs), Offset(gaps, fs, i)) {
        if i > 0 {
          assert SameStart(line, gaps, fs, i);
        }
      }
    }
  }

  lemma ShiftGaps(line: Line, gaps: seq<Bytes>)
    requires |gaps| > 1 && Settles(line, gaps[0])
    ensures GapsSettle(line, gaps) <==> GapsSettle(line, gaps[1..])
  {
    hide Settles;
    if GapsSettle(line, gaps[1..]) {
      forall i | 0 <= i < |gaps| - 1 ensures Settles(line, gaps[i]) {
        if i > 0 {
          assert gaps[i] == gaps[1..][i - 1];
        }
      }
    }
  }

  lemma NoiseSettles(line: Line, gaps: seq<Bytes>)
    requires AllNoise(gaps)
    ensures GapsSettle(line, gaps)
  {
    forall i | 0 <= i < |gaps| - 1 ensures Settles(line, gaps[i]) {
      NoiseIsDropped(line, gaps[i]);
    }
  }

  /** If the gaps settle, what is received is exactly what was sent, between whatever frames the
      gaps themselves contain. */
  lemma {:induction false} FramesBetweenGaps(line: Line, gaps: seq<Bytes>, fs: seq<Bytes>)
    requires |gaps| == |fs| + 1 && AllWellFormed(line, fs) && GapsSettle(line, gaps)
    ensures Frames(line, Weave(gaps, fs)) == Woven(line, gaps, fs)
    decreases |fs|
  {
    if |fs| > 0 {
      hide Settles, WellFormed, IfWanted;
      assert Settles(line, gaps[0]);
      ShiftGaps(line, gaps);
      FramesBetweenGaps(line, gaps[1..], fs[1..]);
      FrameInContext(line, gaps[0], fs[0], Weave(gaps[1..], fs[1..]));
    }
  }

  /** Gaps have to settle: a stray start byte, after any bytes that settle and directly before a
      frame, always costs that frame, whatever follows. Its own start byte is then read as a length
      above the limit, and reading goes on inside the frame. */
  lemma StrayStartByteLosesFrame(line: Line, g: Bytes, f: Bytes, t: Bytes)
    requires Settles(line, g) && WellFormed(line, f)
    ensures !Settles(line, g + [SOF]) && !PassStartsAt(line, g + [SOF] + (f + t), |g| + 1)
    ensures Frames(line, g + ([SOF] + f + t)) == Frames(line, g) + Frames(line, f[3..] + t)
  {
    StrayByteWaits(line, g);
    StartsAfterIff(line, g + [SOF], f + t);
    AfterEmpty(line, g, [SOF] + f + t);
    StrayPass(line, f, t);
  }

  /** A frame damaged behind its header costs itself and nothing else: it is not delivered, and
      what follows is read from its beginning. */
  lemma DamagedFrameCostsItself(line: Line, g: Bytes, f: Bytes, t: Bytes)
    requires Settles(line, g) && |f| >= 6 && f[0] == SOF && |f| == f[1] as nat + 6 <= 64
    requires line.headerOk(f[..4]) && !line.frameOk(f)
    ensures Frames(line, g + (f + t)) == Frames(line, g) + Frames(line, t)
    ensures PassStartsAt(line, g + f + t, |g + f|)
  {
    hide OnePass, Frames, Pending, PassStartsAt;
    DamagedPass(line, f);
    AfterEmpty(line, g, f + t);
    AfterEmpty(line, g, f);
    AfterEmpty(line, f, t);
    StartsAfterIff(line, g + f, t);
  }

  lemma DamagedPass(line: Line, f: Bytes)
    requires |f| >= 6 && f[0] == SOF && |f| == f[1] as nat + 6 <= 64
    requires line.headerOk(f[..4]) && !line.frameOk(f)
    ensures Frames(line, f) == [] && Pending(line, f) == []
  {
    WholeSlice(f);
    EmptySettles(line);
    assert OnePass(line, f) == Drop(|f|);
  }

  /** A header that is damaged, or that announces more than 58 bytes, costs its four bytes and
      nothing else. */
  lemma RefusedHeaderCostsFourBytes(line: Line, g: Bytes, h: Bytes, t: Bytes)
    requires Settles(line, g) && |h| == 4 && h[0] == SOF && (line.headerOk(h) ==> h[1] > 58)
    ensures Frames(line, g + (h + t)) == Frames(line, g) + Frames(line, t)
    ensures PassStartsAt(line, g + h + t, |g + h|)
  {
    hide OnePass, Frames, Pending, PassStartsAt;
    RefusedPass(line, h);
    AfterEmpty(line, g, h + t);
    AfterEmpty(line, g, h);
    AfterEmpty(line, h, t);
    StartsAfterIff(line, g + h, t);
  }

  lemma RefusedPass(line: Line, h: Bytes)
    requires |h| == 4 && h[0] == SOF && (line.headerOk(h) ==> h[1] > 58)
    ensures Frames(line, h) == [] && Pending(line, h) == []
  {
    WholeSlice(h);
    EmptySettles(line);
    assert OnePass(line, h) == Drop(4);
  }

  lemma StrayByteWaits(line: Line, g: Bytes)
    requires Settles(line, g)
    ensures !Settles(line, g + [SOF])
  {
    AfterEmpty(line, g, [SOF]);
    assert OnePass(line, [SOF]).Wait?;
  }

  lemma StrayPass(line: Line, f: Bytes, t: Bytes)
    requires WellFormed(line, f)
    ensures Frames(line, [SOF] + f + t) == Frames(line, f[3..] + t)
  {
    var s := [SOF] + f + t;
    assert s[1] == SOF && s[4..] == f[3..] + t;
    assert OnePass(line, s) == Drop(4);
  }
}
