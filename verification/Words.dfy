/** Machine bytes and 16-bit words as bit strings, least significant bit first: the order
    in which a serial line carries them and in which a reflected CRC register holds them. */
module Words {
  import opened Gf2

  /** The low `n` bits of `w`, least significant first. */
  function LowBits(w: bv16, n: nat): (x: Bits)
    ensures |x| == n
    decreases n
  {
    if n == 0 then [] else [w & 1 != 0] + LowBits(w >> 1, n - 1)
  }

  function WordBits(w: bv16): (x: Bits)
    ensures |x| == 16
  {
    LowBits(w, 16)
  }

  function ByteBits(b: bv8): (x: Bits)
    ensures |x| == 8
  {
    LowBits(b as bv16, 8)
  }

  /** The bits of a byte string in transmission order. */
  function BitsOf(s: seq<bv8>): (x: Bits)
    ensures |x| == 8 * |s|
  {
    if |s| == 0 then [] else ByteBits(s[0]) + BitsOf(s[1..])
  }

  function ShiftRight(w: bv16, n: nat): (v: bv16)
    decreases n
  {
    if n == 0 then w else ShiftRight(w >> 1, n - 1)
  }

  lemma XorOneBit(x: bv16, y: bv16)
    ensures ((x ^ y) & 1 != 0) == ((x & 1 != 0) != (y & 1 != 0))
    ensures (x ^ y) >> 1 == (x >> 1) ^ (y >> 1)
  {
  }

  lemma LowBitsXorStep(x: bv16, y: bv16, z: bv16, n: nat)
    requires n > 0 && (z & 1 != 0) == ((x & 1 != 0) != (y & 1 != 0))
    requires LowBits(z >> 1, n - 1) == Xor(LowBits(x >> 1, n - 1), LowBits(y >> 1, n - 1))
    ensures LowBits(z, n) == Xor(LowBits(x, n), LowBits(y, n))
  {
    XorCons(x & 1 != 0, LowBits(x >> 1, n - 1), y & 1 != 0, LowBits(y >> 1, n - 1));
  }

  lemma {:induction false} LowBitsXor(x: bv16, y: bv16, z: bv16, n: nat)
    requires z == x ^ y
    ensures LowBits(z, n) == Xor(LowBits(x, n), LowBits(y, n))
    decreases n
  {
    if n > 0 {
      XorOneBit(x, y);
      LowBitsXor(x >> 1, y >> 1, z >> 1, n - 1);
      LowBitsXorStep(x, y, z, n);
    }
  }

  lemma {:induction false} LowBitsSplit(w: bv16, n: nat, m: nat)
    ensures LowBits(w, n + m) == LowBits(w, n) + LowBits(ShiftRight(w, n), m)
    decreases n
  {
    if n > 0 {
      LowBitsSplit(w >> 1, n - 1, m);
    } else {
      assert [] + LowBits(w, m) == LowBits(w, m);
    }
  }

  lemma WordBitsXor(x: bv16, y: bv16)
    ensures WordBits(x ^ y) == Xor(WordBits(x), WordBits(y))
  {
    LowBitsXor(x, y, x ^ y, 16);
  }

  lemma ByteBitsXor(x: bv8, y: bv8)
    ensures ByteBits(x ^ y) == Xor(ByteBits(x), ByteBits(y))
  {
    assert (x ^ y) as bv16 == (x as bv16) ^ (y as bv16);
    LowBitsXor(x as bv16, y as bv16, (x ^ y) as bv16, 8);
  }

  lemma ShiftByByte(w: bv16)
    ensures ShiftRight(w, 8) == w >> 8
  {
    var v := w >> 1 >> 1 >> 1 >> 1;
    assert ShiftRight(w, 8) == ShiftRight(w >> 1 >> 1, 6) == ShiftRight(v, 4);
    assert ShiftRight(v, 4) == ShiftRight(v >> 1 >> 1, 2) == v >> 1 >> 1 >> 1 >> 1;
    assert v == w >> 4 && v >> 1 >> 1 >> 1 >> 1 == v >> 4;
    assert w >> 4 >> 4 == w >> 8;
  }

  lemma HighByteIsByte(w: bv16)
    ensures w >> 8 < 256 && ((w >> 8) as bv8) as bv16 == w >> 8
  {
  }

  lemma {:induction false} ZeroBits(n: nat)
    ensures LowBits(0, n) == Zeros(n)
  {
    if n > 0 {
      ZeroBits(n - 1);
    }
  }

  /** Shifting right by a whole byte. */
  lemma HighByteMovesDown(w: bv16)
    ensures WordBits(w >> 8) == WordBits(w)[8..] + Zeros(8)
  {
    LowBitsSplit(w, 8, 8);
    LowBitsSplit(w >> 8, 8, 8);
    ShiftByByte(w);
    ShiftByByte(w >> 8);
    assert w >> 8 >> 8 == 0;
    ZeroBits(8);
  }

  lemma HeadAndTail(w: bv16, n: nat, x: Bits)
    requires n > 0 && LowBits(w, n) == x
    ensures (w & 1 != 0) == x[0] && LowBits(w >> 1, n - 1) == x[1..]
  {
  }

  lemma MaskOneBit(w: bv16, m: bv16, v: bv16)
    requires m & 1 != 0 && v == w & m
    ensures (v & 1 != 0) == (w & 1 != 0) && v >> 1 == (w >> 1) & (m >> 1)
  {
  }

  lemma SameLowBits(w: bv16, v: bv16, n: nat)
    requires n > 0 && (v & 1 != 0) == (w & 1 != 0) && LowBits(v >> 1, n - 1) == LowBits(w >> 1, n - 1)
    ensures LowBits(v, n) == LowBits(w, n)
  {
  }

  lemma OnesTail(m: bv16, n: nat)
    requires n > 0 && LowBits(m, n) == Ones(n)
    ensures m & 1 != 0 && LowBits(m >> 1, n - 1) == Ones(n - 1)
  {
    HeadAndTail(m, n, Ones(n));
    assert Ones(n)[1..] == Ones(n - 1);
  }

  lemma {:induction false} MaskedBits(w: bv16, m: bv16, v: bv16, n: nat)
    requires LowBits(m, n) == Ones(n) && v == w & m
    ensures LowBits(v, n) == LowBits(w, n)
    decreases n
  {
    if n > 0 {
      OnesTail(m, n);
      MaskOneBit(w, m, v);
      MaskedBits(w >> 1, m >> 1, v >> 1, n - 1);
      SameLowBits(w, v, n);
    }
  }

  lemma LowByteMask()
    ensures LowBits(0xff, 8) == Ones(8)
  {
    assert LowBits(0xff, 8) == [true, true, true, true] + LowBits(0xf, 4);
  }

  /** A word is its low byte followed by its high byte. */
  lemma WordIsTwoBytes(w: bv16)
    ensures w & 0xff < 256 && w >> 8 < 256
    ensures WordBits(w) == ByteBits((w & 0xff) as bv8) + ByteBits((w >> 8) as bv8)
  {
    LowBitsSplit(w, 8, 8);
    ShiftByByte(w);
    HighByteIsByte(w);
    LowByteMask();
    MaskedBits(w, 0xff, w & 0xff, 8);
    assert ((w & 0xff) as bv8) as bv16 == w & 0xff;
  }

  lemma ZerosTail(d: bv16, n: nat)
    requires n > 0 && LowBits(d, n) == Zeros(n)
    ensures d & 1 == 0 && LowBits(d >> 1, n - 1) == Zeros(n - 1)
  {
    HeadAndTail(d, n, Zeros(n));
    assert Zeros(n)[1..] == Zeros(n - 1);
  }

  lemma {:induction false} OnlyZeroHasZeroBits(d: bv16, n: nat)
    requires LowBits(d, n) == Zeros(n) && ShiftRight(d, n) == 0
    ensures d == 0
    decreases n
  {
    if n > 0 {
      ZerosTail(d, n);
      OnlyZeroHasZeroBits(d >> 1, n - 1);
    }
  }

  lemma ByteDifference(x: bv8, y: bv8)
    ensures (x ^ y) as bv16 == 0 ==> x == y
    ensures ((x ^ y) as bv16) >> 8 == 0
  {
  }

  /** Different bytes have different bits. */
  lemma ByteBitsInjective(x: bv8, y: bv8)
    requires ByteBits(x) == ByteBits(y)
    ensures x == y
  {
    var d := (x ^ y) as bv16;
    ByteBitsXor(x, y);
    XorSelf(ByteBits(y));
    ByteDifference(x, y);
    ShiftByByte(d);
    OnlyZeroHasZeroBits(d, 8);
  }

  lemma {:induction false} BitsOfInjective(s: seq<bv8>, t: seq<bv8>)
    requires BitsOf(s) == BitsOf(t)
    ensures s == t
  {
    assert |s| == |t| by { assert 8 * |s| == 8 * |t|; }
    if |s| > 0 {
      assert BitsOf(s)[..8] == ByteBits(s[0]) && BitsOf(t)[..8] == ByteBits(t[0]);
      assert BitsOf(s)[8..] == BitsOf(s[1..]) && BitsOf(t)[8..] == BitsOf(t[1..]);
      ByteBitsInjective(s[0], t[0]);
      BitsOfInjective(s[1..], t[1..]);
    }
  }

  lemma {:induction false} BitsOfConcat(s: seq<bv8>, t: seq<bv8>)
    ensures BitsOf(s + t) == BitsOf(s) + BitsOf(t)
  {
    if |s| == 0 {
      assert s + t == t;
    } else {
      assert (s + t)[1..] == s[1..] + t;
      BitsOfConcat(s[1..], t);
    }
  }

  lemma {:induction false} BitsOfZeroBytes(n: nat)
    ensures BitsOf(seq(n, _ => 0 as bv8)) == Zeros(8 * n)
  {
    if n > 0 {
      var s := seq(n, _ => 0 as bv8);
      assert s[1..] == seq(n - 1, _ => 0 as bv8);
      BitsOfZeroBytes(n - 1);
      ZeroBits(8);
    }
  }
}
