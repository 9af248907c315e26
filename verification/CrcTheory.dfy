/** The table-driven byte steps of both checksums are long division by the generator
    polynomials x^8 + x^5 + x^4 + 1 and x^16 + x^12 + x^5 + 1, one byte at a time. */
module CrcTheory {
  import opened Gf2
  import opened Words
  import opened CrcTables

  /** x^8 + x^5 + x^4 + 1 without its leading term. */
  const G8: Bits := [false, false, true, true, false, false, false, true]

  /** x^16 + x^12 + x^5 + 1 without its leading term. */
  const G16: Bits := [false, false, false, true, false, false, false, false,
                      false, false, true, false, false, false, false, true]

  /** What one iteration of the CRC8 loop does to the checksum. */
  function ByteStep8(c: bv8, b: bv8): bv8 {
    Crc8Table(c ^ b)
  }

  /** What one iteration of the CRC16 loop does to the checksum. */
  function ByteStep16(c: bv16, b: bv8): bv16 {
    (c >> 8) ^ Crc16Table(((c ^ (b as bv16)) & 0xff) as bv8)
  }

  // ---------------------------------------------------------------- nibbles

  function Nibble(j: nat): (x: Bits)
    ensures |x| == 4
  {
    [j % 2 == 1, j / 2 % 2 == 1, j / 4 % 2 == 1, j / 8 % 2 == 1]
  }

  lemma NibbleOfByte(b: bv8)
    requires b < 16
    ensures Nibble(b as nat) == [b & 1 != 0, b & 2 != 0, b & 4 != 0, b & 8 != 0]
  {
  }

  lemma FourBits(b: bv8, w: bv16)
    requires w == b as bv16
    ensures LowBits(w, 4) == [b & 1 != 0, b & 2 != 0, b & 4 != 0, b & 8 != 0]
  {
    var h := w >> 1 >> 1;
    assert LowBits(w, 4) == [w & 1 != 0, (w >> 1) & 1 != 0] + LowBits(h, 2);
    assert LowBits(h, 2) == [h & 1 != 0, (h >> 1) & 1 != 0];
  }

  lemma LowNibbleBits(b: bv8, l: bv8)
    requires l == b & 0xf
    ensures l < 16 && Nibble(l as nat) == LowBits(b as bv16, 4)
  {
    FourBits(b, b as bv16);
    LowNibble(b);
    NibbleOfByte(l);
  }

  lemma HighNibbleBits(b: bv8, h: bv8)
    requires h == b >> 4
    ensures h < 16 && Nibble(h as nat) == LowBits(ShiftRight(b as bv16, 4), 4)
  {
    HighNibble(b);
    FourBits(h, h as bv16);
    NibbleOfByte(h);
  }

  lemma ByteIsTwoNibbles(b: bv8, l: bv8, h: bv8)
    requires l == b & 0xf && h == b >> 4
    ensures l < 16 && h < 16 && ByteBits(b) == Nibble(l as nat) + Nibble(h as nat)
  {
    LowBitsSplit(b as bv16, 4, 4);
    LowNibbleBits(b, l);
    HighNibbleBits(b, h);
  }

  lemma LowNibble(b: bv8)
    ensures (b & 0xf) < 16
    ensures (b & 0xf) & 1 == b & 1 && (b & 0xf) & 2 == b & 2
    ensures (b & 0xf) & 4 == b & 4 && (b & 0xf) & 8 == b & 8
  {
  }

  lemma HighNibble(b: bv8)
    ensures b >> 4 < 16 && (b >> 4) as bv16 == (b as bv16) >> 4
    ensures ShiftRight(b as bv16, 4) == (b as bv16) >> 4
  {
    var w := b as bv16;
    assert ShiftRight(w, 4) == ShiftRight(w >> 1 >> 1, 2) == w >> 1 >> 1 >> 1 >> 1;
  }

  lemma NibbleAdds(j: nat)
    requires j < 16
    ensures Nibble(j) == Xor(Nibble(TopBit(j)), Nibble(j - TopBit(j)))
  {
  }

  /** A nibble placed in a byte, with `before` zero bits ahead of it. */
  function Placed(before: nat, j: nat): (x: Bits)
    requires before <= 4
    ensures |x| == 8
  {
    Zeros(before) + Nibble(j) + Zeros(4 - before)
  }

  lemma PlacedAdds(before: nat, j: nat)
    requires before <= 4 && j < 16
    ensures Placed(before, j) == Xor(Placed(before, TopBit(j)), Placed(before, j - TopBit(j)))
  {
    NibbleAdds(j);
    var a, x, y, n := Zeros(before), Nibble(TopBit(j)), Nibble(j - TopBit(j)), Zeros(4 - before);
    assert Xor(a + x + n, a + y + n) == a + Xor(x, y) + n;
  }

  lemma PlacedRemainderAdds(g: Bits, before: nat, j: nat)
    requires |g| > 0 && before <= 4 && j < 16
    ensures Rem(g, Zeros(|g|), Placed(before, j))
         == Xor(Rem(g, Zeros(|g|), Placed(before, TopBit(j))),
                Rem(g, Zeros(|g|), Placed(before, j - TopBit(j))))
  {
    PlacedAdds(before, j);
    RemOfSum(g, Placed(before, TopBit(j)), Placed(before, j - TopBit(j)));
  }

  function Down8(c: bv8): bv8 {
    if c & 1 == 1 then (c >> 1) ^ 0x8c else c >> 1
  }

  function Down16(c: bv16): bv16 {
    if c & 1 == 1 then (c >> 1) ^ 0x8408 else c >> 1
  }

  lemma HalfShifts(w: bv16, n: nat)
    requires n > 0 && ShiftRight(w, n) == 0
    ensures LowBits(w >> 1, n) == LowBits(w, n)[1..] + [false]
  {
    LowBitsSplit(w >> 1, n - 1, 1);
  }

  lemma NothingAbove(w: bv16)
    ensures ShiftRight(w, 16) == 0
  {
    LowBitsSplit(w, 8, 8);
    ShiftByByte(w);
    ShiftByByte(w >> 8);
    assert (w >> 8) >> 8 == 0;
    ShiftTwice(w, 8, 8);
  }

  lemma {:induction false} ShiftTwice(w: bv16, n: nat, m: nat)
    ensures ShiftRight(w, n + m) == ShiftRight(ShiftRight(w, n), m)
    decreases n
  {
    if n > 0 {
      ShiftTwice(w >> 1, n - 1, m);
    }
  }

  lemma NothingAboveByte(c: bv8)
    ensures ShiftRight(c as bv16, 8) == 0
  {
    ShiftByByte(c as bv16);
    assert (c as bv16) >> 8 == 0;
  }

  lemma NibbleWords()
    ensures LowBits(0x8, 4) == [false, false, false, true]
    ensures LowBits(0x08, 8) == [false, false, false, true] + Zeros(4)
  {
    assert LowBits(0x08, 8) == [false, false, false, true] + LowBits(0, 4);
    ZeroBits(4);
  }

  lemma GeneratorByte()
    ensures ByteBits(0x8c) == G8
  {
    NibbleWords();
    assert LowBits(0x8c, 8) == [false, false, true, true] + LowBits(0x8, 4);
  }

  lemma GeneratorWord()
    ensures WordBits(0x8408) == G16
  {
    LowBitsSplit(0x8408, 8, 8);
    ShiftByByte(0x8408);
    NibbleWords();
    assert LowBits(0x84, 8) == [false, false, true, false] + LowBits(0x8, 4);
  }

  lemma GeneratorWords()
    ensures WordBits(0x8408) == G16 && ByteBits(0x8c) == G8
    ensures WordBits(0) == Zeros(16) && ByteBits(0) == Zeros(8)
  {
    hide LowBits;
    GeneratorByte();
    GeneratorWord();
    ZeroBits(16);
    ZeroBits(8);
  }

  lemma LowByteOnly(w: bv16, v: bv16)
    requires v == w & 0xff
    ensures LowBits(w, 8) == LowBits(v, 8)
  {
    LowByteMask();
    MaskedBits(w, 0xff, v, 8);
  }

  lemma DownIsStep16(c: bv16)
    ensures WordBits(Down16(c)) == Step(G16, WordBits(c), false)
  {
    NothingAbove(c);
    HalfShifts(c, 16);
    GeneratorWords();
    WordBitsXor(c >> 1, 0x8408);
    DownIsStep(G16, WordBits(c), WordBits(Down16(c)), c & 1 == 1, WordBits(c >> 1));
  }

  lemma HalfShiftsByte(c: bv8, h: bv8)
    requires h == c >> 1
    ensures ByteBits(h) == ByteBits(c)[1..] + [false]
  {
    var w := c as bv16;
    NothingAboveByte(c);
    HalfShifts(w, 8);
    assert h as bv16 == w >> 1;
  }

  lemma LowestBit(c: bv8)
    ensures ByteBits(c)[0] == (c & 1 == 1)
  {
    var w := c as bv16;
    assert (w & 1 != 0) == (c & 1 == 1);
  }

  lemma DownIsStep8(c: bv8)
    ensures ByteBits(Down8(c)) == Step(G8, ByteBits(c), false)
  {
    var h := c >> 1;
    HalfShiftsByte(c, h);
    LowestBit(c);
    GeneratorWords();
    ByteBitsXor(h, 0x8c);
    DownIsStep(G8, ByteBits(c), ByteBits(Down8(c)), c & 1 == 1, ByteBits(h));
  }

  lemma DownIsStep(g: Bits, r: Bits, r': Bits, low: bool, half: Bits)
    requires |r| == |g| > 0 && r[0] == low && half == r[1..] + [false]
    requires r' == if low then Xor(half, g) else half
    ensures r' == Step(g, r, false)
  {
    if !low {
      XorZeros(half);
    }
  }

  // ------------------------------------------------------------ table entries

  /** The table entry whose index has only bit `7 - m` set. */
  function Basis16(m: nat): bv16 {
    match m
    case 0 => Row16(8, 0) case 1 => Row16(4, 0) case 2 => Row16(2, 0) case 3 => Row16(1, 0)
    case 4 => Row16(0, 8) case 5 => Row16(0, 4) case 6 => Row16(0, 2) case _ => Row16(0, 1)
  }

  function Basis8(m: nat): bv8 {
    match m
    case 0 => Row8(8, 0) case 1 => Row8(4, 0) case 2 => Row8(2, 0) case 3 => Row8(1, 0)
    case 4 => Row8(0, 8) case 5 => Row8(0, 4) case 6 => Row8(0, 2) case _ => Row8(0, 1)
  }

  lemma BasisGoesDown16(m: nat)
    requires m < 7
    ensures Basis16(0) == 0x8408 && Basis16(m + 1) == Down16(Basis16(m))
  {
  }

  lemma BasisGoesDown8(m: nat)
    requires m < 7
    ensures Basis8(0) == 0x8c && Basis8(m + 1) == Down8(Basis8(m))
  {
    match m
    case 0 => case 1 => case 2 => case 3 => case 4 => case 5 => case _ =>
  }

  lemma {:induction false} BasisRemainder16(m: nat, v: bv16)
    requires m < 8 && v == Basis16(m)
    ensures WordBits(v) == Rem(G16, G16, Zeros(m))
    decreases m
  {
    BasisGoesDown16(if m == 0 then 0 else m - 1);
    GeneratorWords();
    if m > 0 {
      var u := Basis16(m - 1);
      BasisRemainder16(m - 1, u);
      DownIsStep16(u);
      OneMoreZero(G16, m - 1);
    }
  }

  lemma {:induction false} BasisRemainder8(m: nat, v: bv8)
    requires m < 8 && v == Basis8(m)
    ensures ByteBits(v) == Rem(G8, G8, Zeros(m))
    decreases m
  {
    BasisGoesDown8(if m == 0 then 0 else m - 1);
    GeneratorWords();
    if m > 0 {
      var u := Basis8(m - 1);
      BasisRemainder8(m - 1, u);
      DownIsStep8(u);
      OneMoreZero(G8, m - 1);
    }
  }

  /** How many zeros follow the set bit when nibble `i` is placed in a byte. */
  function Trailing(before: nat, i: nat): (m: nat)
    requires before <= 4 && (i == 1 || i == 2 || i == 4 || i == 8)
    ensures m < 8
  {
    7 - before - (if i == 1 then 0 else if i == 2 then 1 else if i == 4 then 2 else 3)
  }

  lemma PlacedSingleBit(before: nat, i: nat)
    requires before <= 4 && (i == 1 || i == 2 || i == 4 || i == 8)
    ensures var m := Trailing(before, i); Placed(before, i) == Zeros(7 - m) + [true] + Zeros(m)
  {
    if i == 1 {
      assert Nibble(i) == [true, false, false, false];
    } else if i == 2 {
      assert Nibble(i) == [false, true, false, false];
    } else if i == 4 {
      assert Nibble(i) == [false, false, true, false];
    } else {
      assert Nibble(i) == [false, false, false, true];
    }
  }

  lemma EmptyNibble(g: Bits, before: nat)
    requires |g| > 0 && before <= 4
    ensures Rem(g, Zeros(|g|), Placed(before, 0)) == Zeros(|g|)
  {
    assert Placed(before, 0) == Zeros(8);
    RemOfZeros(g, 8);
  }

  /** The entry for a nibble with at most one bit set. */
  lemma SmallEntry16(before: nat, i: nat, v: bv16)
    requires before == 0 || before == 4
    requires i < 16 && TopBit(i) == i
    requires v == if before == 4 then Row16(i, 0) else Row16(0, i)
    ensures WordBits(v) == Rem(G16, Zeros(16), Placed(before, i))
  {
    if i == 0 {
      GeneratorWords();
      EmptyNibble(G16, before);
    } else {
      PlacedSingleBit(before, i);
      SingleBitRemainder(G16, 7 - Trailing(before, i), Trailing(before, i));
      BasisRemainder16(Trailing(before, i), v);
    }
  }

  lemma AddedEntry16(before: nat, j: nat, a: bv16, b: bv16, v: bv16)
    requires before <= 4 && j < 16 && v == a ^ b
    requires WordBits(a) == Rem(G16, Zeros(16), Placed(before, TopBit(j)))
    requires WordBits(b) == Rem(G16, Zeros(16), Placed(before, j - TopBit(j)))
    ensures WordBits(v) == Rem(G16, Zeros(16), Placed(before, j))
  {
    LowBitsXor(a, b, v, 16);
    PlacedRemainderAdds(G16, before, j);
  }

  lemma {:induction false} FirstRow16(j: nat, v: bv16)
    requires j < 16 && v == Row16(0, j)
    ensures WordBits(v) == Rem(G16, Zeros(16), Placed(0, j))
    decreases j
  {
    var h := TopBit(j);
    if h == j {
      SmallEntry16(0, j, v);
    } else {
      var a, b := Row16(0, h), Row16(0, j - h);
      FirstRow16(h, a);
      FirstRow16(j - h, b);
      FirstRowAdds16(j);
      AddedEntry16(0, j, a, b, v);
    }
  }

  lemma {:induction false} FirstColumn16(r: nat, v: bv16)
    requires r < 16 && v == Row16(r, 0)
    ensures WordBits(v) == Rem(G16, Zeros(16), Placed(4, r))
    decreases r
  {
    var h := TopBit(r);
    if h == r {
      SmallEntry16(4, r, v);
    } else {
      var a, b := Row16(h, 0), Row16(r - h, 0);
      FirstColumn16(h, a);
      FirstColumn16(r - h, b);
      FirstColumnAdds16(r);
      AddedEntry16(4, r, a, b, v);
    }
  }

  lemma TwoNibbles(j: nat, r: nat)
    ensures Nibble(j) + Nibble(r) == Xor(Placed(4, r), Placed(0, j))
  {
  }

  lemma SumOfNibbles16(j: nat, r: nat, a: bv16, b: bv16, v: bv16)
    requires v == a ^ b
    requires WordBits(a) == Rem(G16, Zeros(16), Placed(4, r))
    requires WordBits(b) == Rem(G16, Zeros(16), Placed(0, j))
    ensures WordBits(v) == Rem(G16, Zeros(16), Nibble(j) + Nibble(r))
  {
    LowBitsXor(a, b, v, 16);
    TwoNibbles(j, r);
    RemOfSum(G16, Placed(4, r), Placed(0, j));
  }

  lemma RowAndColumn16(j: nat, r: nat, v: bv16) returns (a: bv16, b: bv16)
    requires j < 16 && r < 16 && v == Row16(r, j)
    ensures v == a ^ b
    ensures WordBits(a) == Rem(G16, Zeros(16), Placed(4, r))
    ensures WordBits(b) == Rem(G16, Zeros(16), Placed(0, j))
  {
    a, b := Row16(r, 0), Row16(0, j);
    EntryIsSum16(r, j);
    FirstColumn16(r, a);
    FirstRow16(j, b);
  }

  /** Each entry of the CRC16 table is the remainder of its index. */
  lemma TableEntry16(i: bv8, v: bv16)
    requires v == Crc16Table(i)
    ensures WordBits(v) == Rem(G16, Zeros(16), ByteBits(i))
  {
    var l, h := i & 0xf, i >> 4;
    ByteIsTwoNibbles(i, l, h);
    var a, b := RowAndColumn16(l as nat, h as nat, v);
    SumOfNibbles16(l as nat, h as nat, a, b, v);
  }

  lemma FirstByte(c: bv16)
    ensures WordBits(c)[..8] == LowBits(c, 8)
  {
    LowBitsSplit(c, 8, 8);
  }

  lemma IndexBits(c: bv16, w: bv16, z: bv16, i: bv16)
    requires z == c ^ w && i == z & 0xff
    ensures LowBits(i, 8) == Xor(WordBits(c)[..8], LowBits(w, 8))
  {
    LowByteOnly(z, i);
    LowBitsXor(c, w, z, 8);
    FirstByte(c);
  }

  lemma ShiftAndAdd16(c: bv16, h: bv16, x: Bits, y: Bits, t: bv16, v: bv16)
    requires |x| == 8 && y == Xor(WordBits(c)[..8], x)
    requires WordBits(t) == Rem(G16, Zeros(16), y)
    requires h == c >> 8 && v == h ^ t
    ensures WordBits(v) == Rem(G16, WordBits(c), x)
  {
    HighByteMovesDown(c);
    RemByLeadingPart(G16, WordBits(c), x, y, WordBits(h), WordBits(t));
    LowBitsXor(h, t, v, 16);
  }

  lemma StepFromLookup16(c: bv16, w: bv16, z: bv16, i: bv16, h: bv16, t: bv16, v: bv16)
    requires z == c ^ w && i == z & 0xff && h == c >> 8 && v == h ^ t
    requires WordBits(t) == Rem(G16, Zeros(16), LowBits(i, 8))
    ensures WordBits(v) == Rem(G16, WordBits(c), LowBits(w, 8))
  {
    IndexBits(c, w, z, i);
    ShiftAndAdd16(c, h, LowBits(w, 8), LowBits(i, 8), t, v);
  }

  lemma Lookup16(c: bv16, b: bv8, w: bv16, z: bv16, h: bv16, v: bv16) returns (i: bv16, t: bv16)
    requires v == ByteStep16(c, b) && w == b as bv16 && z == c ^ w && h == c >> 8
    ensures v == h ^ t && i == z & 0xff
    ensures WordBits(t) == Rem(G16, Zeros(16), LowBits(i, 8))
  {
    var j := ((c ^ (b as bv16)) & 0xff) as bv8;
    i := j as bv16;
    t := Crc16Table(j);
    TableEntry16(j, t);
  }

  /** The table-driven CRC16 step is eight steps of long division. The intermediate words
      are named by the caller. */
  lemma ByteStepDivides16(c: bv16, b: bv8, w: bv16, z: bv16, h: bv16, v: bv16)
    requires v == ByteStep16(c, b) && w == b as bv16 && z == c ^ w && h == c >> 8
    ensures WordBits(v) == Rem(G16, WordBits(c), ByteBits(b))
  {
    var i, t := Lookup16(c, b, w, z, h, v);
    StepFromLookup16(c, w, z, i, h, t, v);
  }

  /** The entry for a nibble with at most one bit set. */
  lemma SmallEntry8(before: nat, i: nat, v: bv8)
    requires before == 0 || before == 4
    requires i < 16 && TopBit(i) == i
    requires v == if before == 4 then Row8(i, 0) else Row8(0, i)
    ensures ByteBits(v) == Rem(G8, Zeros(8), Placed(before, i))
  {
    if i == 0 {
      GeneratorWords();
      EmptyNibble(G8, before);
    } else {
      PlacedSingleBit(before, i);
      SingleBitRemainder(G8, 7 - Trailing(before, i), Trailing(before, i));
      BasisRemainder8(Trailing(before, i), v);
    }
  }

  lemma AddedEntry8(before: nat, j: nat, a: bv8, b: bv8, v: bv8)
    requires before <= 4 && j < 16 && v == a ^ b
    requires ByteBits(a) == Rem(G8, Zeros(8), Placed(before, TopBit(j)))
    requires ByteBits(b) == Rem(G8, Zeros(8), Placed(before, j - TopBit(j)))
    ensures ByteBits(v) == Rem(G8, Zeros(8), Placed(before, j))
  {
    ByteBitsXor(a, b);
    PlacedRemainderAdds(G8, before, j);
  }

  lemma {:induction false} FirstRow8(j: nat, v: bv8)
    requires j < 16 && v == Row8(0, j)
    ensures ByteBits(v) == Rem(G8, Zeros(8), Placed(0, j))
    decreases j
  {
    var h := TopBit(j);
    if h == j {
      SmallEntry8(0, j, v);
    } else {
      var a, b := Row8(0, h), Row8(0, j - h);
      FirstRow8(h, a);
      FirstRow8(j - h, b);
      FirstRowAdds8(j);
      AddedEntry8(0, j, a, b, v);
    }
  }

  lemma {:induction false} FirstColumn8(r: nat, v: bv8)
    requires r < 16 && v == Row8(r, 0)
    ensures ByteBits(v) == Rem(G8, Zeros(8), Placed(4, r))
    decreases r
  {
    var h := TopBit(r);
    if h == r {
      SmallEntry8(4, r, v);
    } else {
      var a, b := Row8(h, 0), Row8(r - h, 0);
      FirstColumn8(h, a);
      FirstColumn8(r - h, b);
      FirstColumnAdds8(r);
      AddedEntry8(4, r, a, b, v);
    }
  }

  lemma SumOfNibbles8(j: nat, r: nat, a: bv8, b: bv8, v: bv8)
    requires v == a ^ b
    requires ByteBits(a) == Rem(G8, Zeros(8), Placed(4, r))
    requires ByteBits(b) == Rem(G8, Zeros(8), Placed(0, j))
    ensures ByteBits(v) == Rem(G8, Zeros(8), Nibble(j) + Nibble(r))
  {
    ByteBitsXor(a, b);
    TwoNibbles(j, r);
    RemOfSum(G8, Placed(4, r), Placed(0, j));
  }

  lemma RowAndColumn8(j: nat, r: nat, v: bv8) returns (a: bv8, b: bv8)
    requires j < 16 && r < 16 && v == Row8(r, j)
    ensures v == a ^ b
    ensures ByteBits(a) == Rem(G8, Zeros(8), Placed(4, r))
    ensures ByteBits(b) == Rem(G8, Zeros(8), Placed(0, j))
  {
    a, b := Row8(r, 0), Row8(0, j);
    EntryIsSum8(r, j);
    FirstColumn8(r, a);
    FirstRow8(j, b);
  }

  /** Each entry of the CRC8 table is the remainder of its index. */
  lemma TableEntry8(i: bv8, v: bv8)
    requires v == Crc8Table(i)
    ensures ByteBits(v) == Rem(G8, Zeros(8), ByteBits(i))
  {
    var l, h := i & 0xf, i >> 4;
    ByteIsTwoNibbles(i, l, h);
    var a, b := RowAndColumn8(l as nat, h as nat, v);
    SumOfNibbles8(l as nat, h as nat, a, b, v);
  }

  lemma IndexBits8(c: bv8, b: bv8, i: bv8)
    requires i == c ^ b
    ensures ByteBits(i) == Xor(ByteBits(b), ByteBits(c))
  {
    ByteBitsXor(c, b);
    XorCommutes(ByteBits(c), ByteBits(b));
  }

  /** The table-driven CRC8 step is eight steps of long division. */
  lemma ByteStepDivides8(c: bv8, b: bv8, v: bv8)
    requires v == ByteStep8(c, b)
    ensures ByteBits(v) == Rem(G8, ByteBits(c), ByteBits(b))
  {
    hide Crc8Table, ByteBits;
    var i := c ^ b;
    IndexBits8(c, b, i);
    TableEntry8(i, v);
    WholeRegister(G8, ByteBits(c), ByteBits(b), ByteBits(i));
  }
}
