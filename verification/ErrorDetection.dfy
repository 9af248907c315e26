/** Which corruptions the two checksums are guaranteed to notice, whatever the message. */
module ErrorDetection {
  import opened Gf2
  import opened Words
  import opened CrcTheory
  import opened Checksums

  /** `t` is `s` with exactly the bits of `e` flipped. */
  predicate Flipped(s: seq<bv8>, e: Bits, t: seq<bv8>) {
    |s| == |t| && |e| == 8 * |s| && BitsOf(t) == Xor(BitsOf(s), e)
  }

  /** Corrupting an accepted message leaves it accepted only if the error is divisible. */
  lemma UndetectedErrorIsDivisible(g: Bits, r: Bits, x: Bits, e: Bits)
    requires |r| == |g| > 0 && |x| == |e| && Rem(g, r, x) == Zeros(|g|)
    ensures Rem(g, r, Xor(x, e)) == Rem(g, Zeros(|g|), e)
  {
    RemLinear(g, r, Zeros(|g|), x, e);
    XorZeros(r);
    XorZeros(Rem(g, Zeros(|g|), e));
  }

  // --------------------------------------------------------------- CRC16

  /** Flipping any nonempty set of bits within 16 consecutive bits is detected. */
  lemma BurstDetected16(s: seq<bv8>, i: nat, w: Bits, j: nat, t: seq<bv8>)
    requires Valid16(s) && |w| <= 16 && w != Zeros(|w|)
    requires Flipped(s, Zeros(i) + w + Zeros(j), t)
    ensures !Valid16(t)
  {
    var e := Zeros(i) + w + Zeros(j);
    GeneratorsAreGenerators();
    UndetectedErrorIsDivisible(G16, Ones(16), BitsOf(s), e);
    BurstNotDivisible(G16, i, w, j);
  }

  /** Every accepted message has an even number of one bits. */
  lemma AcceptedIsEven16(s: seq<bv8>)
    requires Valid16(s)
    ensures !Odd(BitsOf(s))
  {
    ParityOfConstants();
    OddRem(G16, Ones(16), BitsOf(s));
  }

  /** An odd number of flipped bits, wherever they are, is detected. */
  lemma OddErrorDetected16(s: seq<bv8>, e: Bits, t: seq<bv8>)
    requires Valid16(s) && Odd(e) && Flipped(s, e, t)
    ensures !Valid16(t)
  {
    OddXor(BitsOf(s), e);
    AcceptedIsEven16(s);
    if Valid16(t) {
      AcceptedIsEven16(t);
    }
  }

  /** Trailing zero bytes never change the verdict, in either direction. */
  lemma ZeroTailKeepsVerdict16(s: seq<bv8>, n: nat)
    requires |s| > 2
    ensures Valid16(s + ZeroBytes(n)) <==> Valid16(s)
  {
    GeneratorsAreGenerators();
    BitsOfConcat(s, ZeroBytes(n));
    BitsOfZeroBytes(n);
    RemConcat(G16, Ones(16), BitsOf(s), Zeros(8 * n));
    ZerosKeepNonzero(G16, Residue16(s), 8 * n);
  }

  /** For a given payload exactly one trailer is accepted. */
  lemma TrailerUnique16(p: seq<bv8>, t: seq<bv8>, t': seq<bv8>)
    requires |t| == |t'| == 2 && Valid16(p + t) && Valid16(p + t')
    ensures t == t'
  {
    GeneratorsAreGenerators();
    BitsOfConcat(p, t);
    BitsOfConcat(p, t');
    TrailerSpellsRemainder(G16, Ones(16), BitsOf(p), BitsOf(t));
    TrailerSpellsRemainder(G16, Ones(16), BitsOf(p), BitsOf(t'));
    BitsOfInjective(t, t');
  }

  /** The accepted messages are the multiples of x^16 + x^12 + x^5 + 1, after the initial
      register has been added to the leading bits. */
  lemma AcceptedIsMultiple16(s: seq<bv8>)
    requires |s| > 2
    ensures Valid16(s) <==> MultipleOf(G16, Ones(16), BitsOf(s))
  {
    GeneratorsAreGenerators();
    DivisibleIffMultiple(G16, Ones(16), BitsOf(s));
  }

  // ---------------------------------------------------------------- CRC8

  /** Flipping any nonempty set of bits within 8 consecutive bits is detected. */
  lemma BurstDetected8(s: seq<bv8>, i: nat, w: Bits, j: nat, t: seq<bv8>)
    requires Valid8(s) && |w| <= 8 && w != Zeros(|w|)
    requires Flipped(s, Zeros(i) + w + Zeros(j), t)
    ensures !Valid8(t)
  {
    var e := Zeros(i) + w + Zeros(j);
    GeneratorsAreGenerators();
    UndetectedErrorIsDivisible(G8, Ones(8), BitsOf(s), e);
    BurstNotDivisible(G8, i, w, j);
  }

  /** Every accepted header has an even number of one bits. */
  lemma AcceptedIsEven8(s: seq<bv8>)
    requires Valid8(s)
    ensures !Odd(BitsOf(s))
  {
    ParityOfConstants();
    OddRem(G8, Ones(8), BitsOf(s));
  }

  /** An odd number of flipped bits, wherever they are, is detected. */
  lemma OddErrorDetected8(s: seq<bv8>, e: Bits, t: seq<bv8>)
    requires Valid8(s) && Odd(e) && Flipped(s, e, t)
    ensures !Valid8(t)
  {
    OddXor(BitsOf(s), e);
    AcceptedIsEven8(s);
    if Valid8(t) {
      AcceptedIsEven8(t);
    }
  }

  /** For a given payload exactly one checksum byte is accepted. */
  lemma TrailerUnique8(p: seq<bv8>, t: bv8, t': bv8)
    requires Valid8(p + [t]) && Valid8(p + [t'])
    ensures t == t'
  {
    GeneratorsAreGenerators();
    BitsOfSnoc(p, t);
    BitsOfSnoc(p, t');
    TrailerSpellsRemainder(G8, Ones(8), BitsOf(p), ByteBits(t));
    TrailerSpellsRemainder(G8, Ones(8), BitsOf(p), ByteBits(t'));
    ByteBitsInjective(t, t');
  }

  /** The accepted headers are the multiples of x^8 + x^5 + x^4 + 1, after the initial
      register has been added to the leading bits. */
  lemma AcceptedIsMultiple8(s: seq<bv8>)
    requires |s| > 2
    ensures Valid8(s) <==> MultipleOf(G8, Ones(8), BitsOf(s))
  {
    GeneratorsAreGenerators();
    DivisibleIffMultiple(G8, Ones(8), BitsOf(s));
  }

  lemma OddOfHalves(x: Bits, y: Bits, z: Bits)
    requires z == x + y
    ensures Odd(z) == (Odd(x) != Odd(y))
  {
    OddConcat(x, y);
  }

  lemma ParityOfConstants()
    ensures Odd(G8) && Odd(G16) && !Odd(Ones(8)) && !Odd(Ones(16))
    ensures !Odd(Zeros(8)) && !Odd(Zeros(16))
  {
    OddZeros(8);
    OddZeros(16);
    var o := [true, true, true, true];
    assert !Odd(o);
    OddOfHalves(o, o, Ones(8));
    OddOfHalves(Ones(8), Ones(8), Ones(16));
    OddOfGenerators();
  }

  lemma OddOfGenerators()
    ensures Odd(G8) && Odd(G16)
  {
    var l, h := [false, false, true, true], [false, false, false, true];
    var n, z := [false, false, true, false], [false, false, false, false];
    assert !Odd(l) && Odd(h) && Odd(n) && !Odd(z);
    OddOfHalves(l, h, G8);
    var first, second := h + z, n + h;
    OddOfHalves(h, z, first);
    OddOfHalves(n, h, second);
    GeneratorHalves(first, second);
    OddOfHalves(first, second, G16);
  }

  lemma GeneratorHalves(x: Bits, y: Bits)
    requires x == [false, false, false, true] + [false, false, false, false]
    requires y == [false, false, true, false] + [false, false, false, true]
    ensures G16 == x + y
  {
  }
}
