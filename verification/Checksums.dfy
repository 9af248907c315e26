/** The checksum routines on byte buffers, and what their verdict means. A buffer is
    accepted exactly when the division of all its bits, trailer included, leaves nothing. */
module Checksums {
  import opened Gf2
  import opened Words
  import opened CrcTables
  import opened CrcTheory

  const CRC8_INIT: bv8 := 0xff
  const CRC16_INIT: bv16 := 0xffff

  /** The remainder of a whole byte string, started from the initial register. */
  function Residue8(s: seq<bv8>): (r: Bits) {
    Rem(G8, Ones(8), BitsOf(s))
  }

  function Residue16(s: seq<bv8>): (r: Bits) {
    Rem(G16, Ones(16), BitsOf(s))
  }

  /** The byte strings `verify_CRC8_check_sum` accepts. */
  predicate Valid8(s: seq<bv8>) {
    |s| > 2 && Residue8(s) == Zeros(8)
  }

  /** The byte strings `verify_CRC16_check_sum` accepts. */
  predicate Valid16(s: seq<bv8>) {
    |s| > 2 && Residue16(s) == Zeros(16)
  }

  function ZeroBytes(n: nat): (z: seq<bv8>) {
    seq(n, _ => 0)
  }

  // -------------------------------------------------------------- preliminaries

  lemma GeneratorsAreGenerators()
    ensures Generator(G8) && Generator(G16) && |G8| == 8 && |G16| == 16
  {
  }

  lemma InitialRegisters()
    ensures ByteBits(CRC8_INIT) == Ones(8) && WordBits(CRC16_INIT) == Ones(16)
  {
    LowByteMask();
    LowBitsSplit(0xffff, 8, 8);
    ShiftByByte(0xffff);
    MaskedBits(0xffff, 0xff, 0xff, 8);
    assert WordBits(0xffff) == Ones(8) + Ones(8);
  }

  lemma BitsOfSnoc(s: seq<bv8>, b: bv8)
    ensures BitsOf(s + [b]) == BitsOf(s) + ByteBits(b)
  {
    BitsOfConcat(s, [b]);
    assert BitsOf([b]) == ByteBits(b);
  }

  // ------------------------------------------------------------------ CRC8

  lemma OneMoreByte8(r: Bits, s: seq<bv8>, c: bv8, b: bv8, v: bv8, t: seq<bv8>)
    requires |r| == 8 && ByteBits(c) == Rem(G8, r, BitsOf(s))
    requires v == ByteStep8(c, b) && t == s + [b]
    ensures ByteBits(v) == Rem(G8, r, BitsOf(t))
  {
    ByteStepDivides8(c, b, v);
    BitsOfSnoc(s, b);
    RemConcat(G8, r, BitsOf(s), ByteBits(b));
  }

  /** `get_CRC8_check_sum`: the checksum is the remainder of the first `n` bytes. */
  method GetCrc8CheckSum(a: array<bv8>, n: nat, init: bv8) returns (c: bv8)
    requires n <= a.Length
    ensures ByteBits(c) == Rem(G8, ByteBits(init), BitsOf(a[..n]))
  {
    c := init;
    var i := 0;
    while i < n
      invariant 0 <= i <= n
      invariant ByteBits(c) == Rem(G8, ByteBits(init), BitsOf(a[..i]))
    {
      var b := a[i];
      var v := ByteStep8(c, b);
      assert a[..i + 1] == a[..i] + [b];
      OneMoreByte8(ByteBits(init), a[..i], c, b, v, a[..i + 1]);
      c, i := v, i + 1;
    }
  }

  // ------------------------------------------------------------------ CRC16

  lemma OneMoreByte16(r: Bits, s: seq<bv8>, c: bv16, b: bv8, w: bv16, z: bv16, h: bv16, v: bv16,
                      t: seq<bv8>)
    requires |r| == 16 && WordBits(c) == Rem(G16, r, BitsOf(s))
    requires v == ByteStep16(c, b) && w == b as bv16 && z == c ^ w && h == c >> 8
    requires t == s + [b]
    ensures WordBits(v) == Rem(G16, r, BitsOf(t))
  {
    ByteStepDivides16(c, b, w, z, h, v);
    BitsOfSnoc(s, b);
    RemConcat(G16, r, BitsOf(s), ByteBits(b));
  }

  /** `get_CRC16_check_sum`: a null pointer yields 0xFFFF, otherwise the checksum is the
      remainder of the first `n` bytes. */
  method GetCrc16CheckSum(a: array?<bv8>, n: nat, init: bv16) returns (c: bv16)
    requires a != null ==> n <= a.Length
    ensures a == null ==> c == 0xffff
    ensures a != null ==> WordBits(c) == Rem(G16, WordBits(init), BitsOf(a[..n]))
  {
    if a == null {
      return 0xffff;
    }
    c := init;
    var i := 0;
    while i < n
      invariant 0 <= i <= n
      invariant WordBits(c) == Rem(G16, WordBits(init), BitsOf(a[..i]))
    {
      var b := a[i];
      var v := ByteStep16(c, b);
      ghost var w := b as bv16;
      ghost var z, h := c ^ w, c >> 8;
      assert a[..i + 1] == a[..i] + [b];
      OneMoreByte16(WordBits(init), a[..i], c, b, w, z, h, v, a[..i + 1]);
      c, i := v, i + 1;
    }
  }

  // ------------------------------------------------------- the trailer and the verdict

  /** A trailer as long as the register brings the remainder to zero exactly when it
      spells out the remainder of the payload. */
  lemma TrailerSpellsRemainder(g: Bits, r: Bits, p: Bits, t: Bits)
    requires Generator(g) && |r| == |g| == |t|
    ensures Rem(g, r, p + t) == Zeros(|g|) <==> Rem(g, r, p) == t
  {
    RemConcat(g, r, p, t);
    ZeroRemainder(g, Rem(g, r, p), t);
    AppendNothing(t);
  }

  lemma Trailer8(p: seq<bv8>, t: bv8, c: bv8)
    requires ByteBits(c) == Residue8(p)
    ensures Residue8(p + [t]) == Zeros(8) <==> c == t
  {
    GeneratorsAreGenerators();
    BitsOfSnoc(p, t);
    TrailerSpellsRemainder(G8, Ones(8), BitsOf(p), ByteBits(t));
    if ByteBits(c) == ByteBits(t) {
      ByteBitsInjective(c, t);
    }
  }

  lemma BitsOfPair(l: bv8, h: bv8)
    ensures BitsOf([l, h]) == ByteBits(l) + ByteBits(h)
  {
    BitsOfSnoc([l], h);
    assert [l] + [h] == [l, h];
    assert BitsOf([l]) == ByteBits(l);
  }

  lemma SameTwoBytes(l: bv8, h: bv8, l': bv8, h': bv8)
    ensures ByteBits(l) + ByteBits(h) == ByteBits(l') + ByteBits(h') <==> l == l' && h == h'
  {
    if ByteBits(l) + ByteBits(h) == ByteBits(l') + ByteBits(h') {
      assert (ByteBits(l) + ByteBits(h))[..8] == ByteBits(l);
      assert (ByteBits(l') + ByteBits(h'))[..8] == ByteBits(l');
      assert (ByteBits(l) + ByteBits(h))[8..] == ByteBits(h);
      assert (ByteBits(l') + ByteBits(h'))[8..] == ByteBits(h');
      ByteBitsInjective(l, l');
      ByteBitsInjective(h, h');
    }
  }

  lemma Trailer16(p: seq<bv8>, l: bv8, h: bv8, c: bv16, lo: bv8, hi: bv8)
    requires WordBits(c) == Residue16(p)
    requires c & 0xff == lo as bv16 && c >> 8 == hi as bv16
    ensures Residue16(p + [l, h]) == Zeros(16) <==> lo == l && hi == h
  {
    GeneratorsAreGenerators();
    BitsOfConcat(p, [l, h]);
    BitsOfPair(l, h);
    TrailerSpellsRemainder(G16, Ones(16), BitsOf(p), BitsOf([l, h]));
    WordIsTwoBytes(c);
    SameTwoBytes(lo, hi, l, h);
  }

  lemma TwoBytesOf(c: bv16) returns (lo: bv8, hi: bv8)
    ensures c & 0xff == lo as bv16 && c >> 8 == hi as bv16 && (c >> 8) & 0xff == hi as bv16
    ensures lo == (c & 0xff) as bv8 && hi == ((c >> 8) & 0xff) as bv8
  {
    lo, hi := (c & 0xff) as bv8, (c >> 8) as bv8;
  }

  lemma CompareBytes(x: bv16, b: bv8, b': bv8)
    requires x == b as bv16
    ensures x == b' as bv16 <==> b == b'
  {
  }

  /** The comparison both CRC16 verifiers end with: the low byte comes first. */
  method TrailerMatches(ghost p: seq<bv8>, c: bv16, l: bv8, h: bv8, ghost s: seq<bv8>)
    returns (ok: bool)
    requires WordBits(c) == Residue16(p) && s == p + [l, h] && |s| > 2
    ensures ok <==> Valid16(s)
  {
    ghost var lo, hi := TwoBytesOf(c);
    CompareBytes(c & 0xff, lo, l);
    CompareBytes((c >> 8) & 0xff, hi, h);
    Trailer16(p, l, h, c, lo, hi);
    ok := c & 0xff == l as bv16 && (c >> 8) & 0xff == h as bv16;
  }

  lemma SplitTrailer(s: seq<bv8>)
    requires |s| >= 2
    ensures s == s[..|s| - 2] + [s[|s| - 2], s[|s| - 1]]
  {
  }

  // ----------------------------------------------------------- verify and append

  /** `verify_CRC8_check_sum`: rejects null pointers and buffers of at most two bytes. */
  method VerifyCrc8CheckSum(a: array?<bv8>, n: nat) returns (ok: bool)
    requires a != null ==> n <= a.Length
    ensures ok <==> a != null && Valid8(a[..n])
  {
    if a == null || n <= 2 {
      return false;
    }
    var expected := GetCrc8CheckSum(a, n - 1, CRC8_INIT);
    InitialRegisters();
    Trailer8(a[..n - 1], a[n - 1], expected);
    assert a[..n] == a[..n - 1] + [a[n - 1]];
    ok := expected == a[n - 1];
  }

  /** `append_CRC8_check_sum`: overwrites only the last byte, and makes the buffer valid. */
  method AppendCrc8CheckSum(a: array?<bv8>, n: nat)
    requires a != null ==> n <= a.Length
    modifies a
    ensures a != null && n <= 2 ==> a[..] == old(a[..])
    ensures a != null && n > 2 ==>
              && Valid8(a[..n])
              && a[..n - 1] == old(a[..n - 1]) && a[n..] == old(a[n..])
  {
    if a == null || n <= 2 {
      return;
    }
    var crc := GetCrc8CheckSum(a, n - 1, CRC8_INIT);
    ghost var payload := a[..n - 1];
    a[n - 1] := crc;
    InitialRegisters();
    Trailer8(payload, crc, crc);
    assert a[..n] == payload + [crc];
  }

  method PayloadCrc16(a: array<bv8>, n: nat) returns (c: bv16)
    requires n <= a.Length
    ensures WordBits(c) == Residue16(a[..n])
  {
    InitialRegisters();
    c := GetCrc16CheckSum(a, n, CRC16_INIT);
  }

  /** `verify_CRC16_check_sum`: rejects null pointers and buffers of at most two bytes. */
  method VerifyCrc16CheckSum(a: array?<bv8>, n: nat) returns (ok: bool)
    requires a != null ==> n <= a.Length
    ensures ok <==> a != null && Valid16(a[..n])
  {
    if a == null || n <= 2 {
      return false;
    }
    var expected := PayloadCrc16(a, n - 2);
    ghost var s := a[..n];
    SplitTrailer(s);
    assert a[..n - 2] == s[..n - 2];
    ok := TrailerMatches(s[..n - 2], expected, a[n - 2], a[n - 1], s);
  }

  /** `append_CRC16_check_sum`: overwrites only the last two bytes, low byte first, and makes
      the buffer valid. */
  method AppendCrc16CheckSum(a: array?<bv8>, n: nat)
    requires a != null ==> n <= a.Length
    modifies a
    ensures a != null && n <= 2 ==> a[..] == old(a[..])
    ensures a != null && n > 2 ==>
              && Valid16(a[..n])
              && a[..n - 2] == old(a[..n - 2]) && a[n..] == old(a[n..])
  {
    if a == null || n <= 2 {
      return;
    }
    var crc := PayloadCrc16(a, n - 2);
    ghost var payload := a[..n - 2];
    ghost var lo, hi := TwoBytesOf(crc);
    a[n - 2] := (crc & 0x00ff) as bv8;
    a[n - 1] := ((crc >> 8) & 0x00ff) as bv8;
    Trailer16(payload, lo, hi, crc, lo, hi);
    assert a[..n] == payload + [lo, hi];
  }

  /** The overload of `verify_CRC16_check_sum` for vectors. */
  method VerifyCrc16Vector(v: seq<bv8>) returns (ok: bool)
    ensures ok <==> Valid16(v)
  {
    if |v| <= 2 {
      return false;
    }
    var data := new bv8[|v|](i requires 0 <= i < |v| => v[i]);
    assert data[..] == data[..|v|] == v;
    ok := VerifyCrc16CheckSum(data, |v|);
  }
}
