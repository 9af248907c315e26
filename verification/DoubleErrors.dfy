/** Two flipped bits, and up to three: exactly which distances between two flipped bits go
    undetected. */
module DoubleErrors {
  import opened Checksums
  import opened CrcTheory
  import opened ErrorDetection
  import opened Gf2
  import opened Orders
  import opened Periods
  import opened Words

  /** Flipping two bits of an accepted message, of any length, goes undetected exactly if they are
      a multiple of 32767 places apart. */
  lemma TwoErrorsUndetectedIff16(s: seq<bv8>, i: nat, k: nat, j: nat, t: seq<bv8>)
    requires Valid16(s) && Flipped(s, Zeros(i) + [true] + Zeros(k) + [true] + Zeros(j), t)
    ensures Valid16(t) <==> (k + 1) % 32767 == 0
  {
    hide Returns;
    GeneratorsAreGenerators();
    UndetectedErrorIsDivisible(G16, Ones(16), BitsOf(s),
                               Zeros(i) + [true] + Zeros(k) + [true] + Zeros(j));
    TwoBitsDivisibleIff(G16, i, k, j);
    OrderOfX16(k + 1);
  }

  /** Flipping two bits of an accepted message, of any length, goes undetected exactly if they are
      a multiple of 127 places apart. */
  lemma TwoErrorsUndetectedIff8(s: seq<bv8>, i: nat, k: nat, j: nat, t: seq<bv8>)
    requires Valid8(s) && Flipped(s, Zeros(i) + [true] + Zeros(k) + [true] + Zeros(j), t)
    ensures Valid8(t) <==> (k + 1) % 127 == 0
  {
    hide Returns;
    GeneratorsAreGenerators();
    UndetectedErrorIsDivisible(G8, Ones(8), BitsOf(s),
                               Zeros(i) + [true] + Zeros(k) + [true] + Zeros(j));
    TwoBitsDivisibleIff(G8, i, k, j);
    OrderOfX8(k + 1);
  }

  // ------------------------------------------------------- up to three flipped bits

  /** The number of bits set. */
  function Weight(e: Bits): (n: nat) {
    if |e| == 0 then 0 else (if e[0] then 1 else 0) + Weight(e[1..])
  }

  lemma {:induction false} OddWeight(e: Bits)
    ensures Odd(e) <==> Weight(e) % 2 == 1
    decreases |e|
  {
    if |e| > 0 {
      OddWeight(e[1..]);
    }
  }

  lemma {:induction false} FirstSetBit(e: Bits) returns (i: nat, rest: Bits)
    requires Weight(e) > 0
    ensures e == Zeros(i) + [true] + rest && Weight(rest) == Weight(e) - 1
    decreases |e|
  {
    if e[0] {
      i, rest := 0, e[1..];
    } else {
      i, rest := FirstSetBit(e[1..]);
      assert e == [false] + e[1..];
      i := i + 1;
    }
  }

  lemma {:induction false} NoSetBit(e: Bits)
    requires Weight(e) == 0
    ensures e == Zeros(|e|)
    decreases |e|
  {
    if |e| > 0 {
      NoSetBit(e[1..]);
      assert e == [e[0]] + e[1..];
    }
  }

  lemma TwoSetBits(e: Bits) returns (i: nat, k: nat, j: nat)
    requires Weight(e) == 2
    ensures e == Zeros(i) + [true] + Zeros(k) + [true] + Zeros(j) && k + 1 < |e|
  {
    var rest, tail;
    i, rest := FirstSetBit(e);
    k, tail := FirstSetBit(rest);
    NoSetBit(tail);
    j := |tail|;
    TwoBits(e, i, k, rest, tail);
  }

  lemma TwoBits(e: Bits, i: nat, k: nat, rest: Bits, tail: Bits)
    requires e == Zeros(i) + [true] + rest && rest == Zeros(k) + [true] + tail
    ensures e == Zeros(i) + [true] + Zeros(k) + [true] + tail && k + 1 < |e|
  {
  }

  /** In a message of up to 4095 bytes, flipping one, two or three bits, wherever they are, is
      detected. */
  lemma UpToThreeErrorsDetected16(s: seq<bv8>, e: Bits, t: seq<bv8>)
    requires Valid16(s) && |s| <= 4095 && 1 <= Weight(e) <= 3 && Flipped(s, e, t)
    ensures !Valid16(t)
  {
    hide Valid16;
    OddWeight(e);
    if Weight(e) == 2 {
      var i, k, j := TwoSetBits(e);
      TwoErrorsUndetectedIff16(s, i, k, j, t);
    } else {
      OddErrorDetected16(s, e, t);
    }
  }

  /** In a header, and in anything of up to 15 bytes, flipping one, two or three bits is
      detected. */
  lemma UpToThreeErrorsDetected8(s: seq<bv8>, e: Bits, t: seq<bv8>)
    requires Valid8(s) && |s| <= 15 && 1 <= Weight(e) <= 3 && Flipped(s, e, t)
    ensures !Valid8(t)
  {
    hide Valid8;
    OddWeight(e);
    if Weight(e) == 2 {
      var i, k, j := TwoSetBits(e);
      TwoErrorsUndetectedIff8(s, i, k, j, t);
    } else {
      OddErrorDetected8(s, e, t);
    }
  }
}
