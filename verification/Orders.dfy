/** The order of x modulo each of the two generators: 32767 and 127. Powers of x are what zero bits
    make of a register, and squares are taken to reach the large ones. */
module Orders {
  import opened CrcTheory
  import opened Gf2
  import opened Periods
  import opened Words

  lemma OneZeroFirst(k: nat)
    requires k > 0
    ensures Zeros(k)[0] == false && Zeros(k)[1..] == Zeros(k - 1)
  {
  }

  lemma WordBitsInjective(x: bv16, y: bv16)
    requires WordBits(x) == WordBits(y)
    ensures x == y
  {
    var d := x ^ y;
    WordBitsXor(x, y);
    XorSelf(WordBits(y));
    NothingAbove(d);
    OnlyZeroHasZeroBits(d, 16);
    NoDifference(x, y);
  }

  lemma NoDifference(x: bv16, y: bv16)
    ensures x ^ y == 0 ==> x == y
  {
  }

  // ------------------------------------------------------------------- CRC16

  /** The register after `k` zero bits. */
  function Falls16(c: bv16, k: nat): (d: bv16)
    decreases k
  {
    if k == 0 then c else Falls16(Down16(c), k - 1)
  }

  lemma {:induction false} FallsDivide16(c: bv16, k: nat)
    ensures WordBits(Falls16(c, k)) == Rem(G16, WordBits(c), Zeros(k))
    decreases k
  {
    if k > 0 {
      DownIsStep16(c);
      OneZeroFirst(k);
      FallsDivide16(Down16(c), k - 1);
    }
  }

  lemma {:induction false} FallsAdd16(c: bv16, j: nat, k: nat)
    ensures Falls16(c, j + k) == Falls16(Falls16(c, j), k)
    decreases j
  {
    if j > 0 {
      FallsAdd16(Down16(c), j - 1, k);
    }
  }

  lemma OneMoreFall16(c: bv16, k: nat)
    ensures Falls16(c, k + 1) == Down16(Falls16(c, k))
  {
    hide Down16;
    FallsAdd16(c, k, 1);
    var d := Falls16(c, k);
    assert Falls16(d, 1) == Falls16(Down16(d), 0);
  }

  lemma DownInjective16(c: bv16, d: bv16)
    ensures Down16(c) == Down16(d) ==> c == d
  {
  }

  lemma {:induction false} FallsInjective16(c: bv16, d: bv16, k: nat)
    requires Falls16(c, k) == Falls16(d, k)
    ensures c == d
    decreases k
  {
    hide Down16;
    if k > 0 {
      FallsInjective16(Down16(c), Down16(d), k - 1);
      DownInjective16(c, d);
    }
  }

  function Plus(x: bv16, y: bv16): (z: bv16) {
    x ^ y
  }

  function Half(c: bv16): (d: bv16) {
    c >> 1
  }

  predicate Low(c: bv16) {
    c & 1 != 0
  }

  /** Column `n` stands for the square of x to the power `n - 1`. */
  function Column(n: nat): (c: bv16) {
    match n
    case 1 => 0x8000 case 2 => 0x2000 case 3 => 0x0800 case 4 => 0x0200
    case 5 => 0x0080 case 6 => 0x0020 case 7 => 0x0008 case 8 => 0x0002
    case 9 => 0x8408 case 10 => 0x2102 case 11 => 0x8c48 case 12 => 0x2312
    case 13 => 0x8ccc case 14 => 0x2333 case 15 => 0xcec0 case _ => 0x33b0
  }

  function Term(on: bool, k: bv16): (c: bv16) {
    if on then k else 0
  }

  /** The sum of those of the columns `n` down to 1 whose bits are set in `c`, lowest bit first. */
  function Spread(c: bv16, n: nat): (d: bv16)
    decreases n
  {
    if n == 0 then 0 else Plus(Term(Low(c), Column(n)), Spread(Half(c), n - 1))
  }

  /** The columns that four bits of `c` stand for, each by four bits, written out. */
  function Quarter0(c: bv16): (d: bv16) {
    (if c & 0x0001 != 0 then 0x33b0 else 0)
    ^ ((if c & 0x0002 != 0 then 0xcec0 else 0)
       ^ ((if c & 0x0004 != 0 then 0x2333 else 0)
          ^ (if c & 0x0008 != 0 then 0x8ccc else 0)))
  }

  function Quarter1(c: bv16): (d: bv16) {
    (if c & 0x0010 != 0 then 0x2312 else 0)
    ^ ((if c & 0x0020 != 0 then 0x8c48 else 0)
       ^ ((if c & 0x0040 != 0 then 0x2102 else 0)
          ^ (if c & 0x0080 != 0 then 0x8408 else 0)))
  }

  function Quarter2(c: bv16): (d: bv16) {
    (if c & 0x0100 != 0 then 0x0002 else 0)
    ^ ((if c & 0x0200 != 0 then 0x0008 else 0)
       ^ ((if c & 0x0400 != 0 then 0x0020 else 0)
          ^ (if c & 0x0800 != 0 then 0x0080 else 0)))
  }

  function Quarter3(c: bv16): (d: bv16) {
    (if c & 0x1000 != 0 then 0x0200 else 0)
    ^ ((if c & 0x2000 != 0 then 0x0800 else 0)
       ^ ((if c & 0x4000 != 0 then 0x2000 else 0)
          ^ (if c & 0x8000 != 0 then 0x8000 else 0)))
  }

  /** The square of a remainder: the map that doubles every exponent. */
  function Square16(c: bv16): (d: bv16) {
    Quarter0(c) ^ (Quarter1(c) ^ (Quarter2(c) ^ Quarter3(c)))
  }

  function FourTerms(c: bv16, n: nat): (d: bv16)
    requires n >= 4
  {
    Plus(Term(Low(c), Column(n)),
      Plus(Term(Low(Half(c)), Column(n - 1)),
        Plus(Term(Low(Half(Half(c))), Column(n - 2)),
          Term(Low(Half(Half(Half(c)))), Column(n - 3)))))
  }

  function FourHalves(c: bv16): (d: bv16) {
    Half(Half(Half(Half(c))))
  }

  lemma QuarterTerms0(c: bv16)
    ensures Quarter0(c) == FourTerms(c, 16)
  {
    assert (c & 2 != 0) == Low(Half(c)) && (c & 4 != 0) == Low(Half(Half(c)));
    assert (c & 8 != 0) == Low(Half(Half(Half(c))));
  }

  lemma QuarterTerms1(c: bv16, d: bv16)
    requires d == c >> 4
    ensures Quarter1(c) == FourTerms(d, 12)
  {
    assert (c & 0x0010 != 0) == Low(d) && (c & 0x0020 != 0) == Low(Half(d));
    assert (c & 0x0040 != 0) == Low(Half(Half(d)));
    assert (c & 0x0080 != 0) == Low(Half(Half(Half(d))));
  }

  lemma QuarterTerms2(c: bv16, d: bv16)
    requires d == c >> 8
    ensures Quarter2(c) == FourTerms(d, 8)
  {
    assert (c & 0x0100 != 0) == Low(d) && (c & 0x0200 != 0) == Low(Half(d));
    assert (c & 0x0400 != 0) == Low(Half(Half(d)));
    assert (c & 0x0800 != 0) == Low(Half(Half(Half(d))));
  }

  lemma QuarterTerms3(c: bv16, d: bv16)
    requires d == c >> 12
    ensures Quarter3(c) == FourTerms(d, 4)
  {
    assert (c & 0x1000 != 0) == Low(d) && (c & 0x2000 != 0) == Low(Half(d));
    assert (c & 0x4000 != 0) == Low(Half(Half(d)));
    assert (c & 0x8000 != 0) == Low(Half(Half(Half(d))));
  }

  lemma SpreadFour(c: bv16, n: nat)
    requires n >= 4
    ensures Spread(c, n) == Plus(FourTerms(c, n), Spread(FourHalves(c), n - 4))
  {
    hide Plus, Half, Low, Term, Column;
    var d := Half(c);
    var e := Half(d);
    var s, t := Term(Low(c), Column(n)), Term(Low(d), Column(n - 1));
    var u, v := Term(Low(e), Column(n - 2)), Term(Low(Half(e)), Column(n - 3));
    var rest := Spread(Half(Half(e)), n - 4);
    assert Spread(e, n - 2) == Plus(u, Plus(v, rest));
    PlusAssociates(u, v, rest);
    PlusAssociates(t, Plus(u, v), rest);
    PlusAssociates(s, Plus(t, Plus(u, v)), rest);
  }

  lemma SumOfFour(a: bv16, b: bv16, c: bv16, d: bv16)
    ensures a ^ (b ^ (c ^ d)) == Plus(a, Plus(b, Plus(c, d)))
  {
  }

  lemma SquareIsSum(c: bv16)
    ensures Square16(c) == Plus(Quarter0(c), Plus(Quarter1(c), Plus(Quarter2(c), Quarter3(c))))
  {
    hide Quarter0, Quarter1, Quarter2, Quarter3, Plus;
    SumOfFour(Quarter0(c), Quarter1(c), Quarter2(c), Quarter3(c));
  }

  lemma FourHalvesShift(c: bv16, d: bv16)
    requires d == c >> 4
    ensures d == FourHalves(c)
  {
  }

  lemma ShiftsAdd(c: bv16, c4: bv16, c8: bv16)
    requires c4 == c >> 4 && c8 == c >> 8
    ensures c8 == c4 >> 4 && c >> 12 == c8 >> 4
  {
  }

  lemma SquareIsSpread(c: bv16)
    ensures Square16(c) == Spread(c, 16)
  {
    hide FourTerms, FourHalves, Spread, Plus, Quarter0, Quarter1, Quarter2, Quarter3, Square16;
    var c4, c8, c12 := c >> 4, c >> 8, c >> 12;
    ShiftsAdd(c, c4, c8);
    FourHalvesShift(c, c4);
    FourHalvesShift(c4, c8);
    FourHalvesShift(c8, c12);
    SquareIsSum(c);
    QuarterTerms0(c);
    QuarterTerms1(c, c4);
    QuarterTerms2(c, c8);
    QuarterTerms3(c, c12);
    SpreadFour(c, 16);
    SpreadFour(c4, 12);
    SpreadFour(c8, 8);
    SpreadFour(c12, 4);
    NothingSpreads(FourHalves(c12));
    PlusNothing(FourTerms(c12, 4));
  }

  lemma NothingSpreads(c: bv16)
    ensures Spread(c, 0) == 0
  {
  }

  lemma PlusCommutes(x: bv16, y: bv16)
    ensures Plus(x, y) == Plus(y, x)
  {
  }

  lemma PlusAssociates(x: bv16, y: bv16, z: bv16)
    ensures Plus(Plus(x, y), z) == Plus(x, Plus(y, z))
  {
  }

  lemma PlusShuffles(a: bv16, b: bv16, x: bv16, y: bv16)
    ensures Plus(Plus(a, b), Plus(x, y)) == Plus(Plus(a, x), Plus(b, y))
  {
    hide Plus;
    PlusAssociates(a, b, Plus(x, y));
    PlusAssociates(b, x, y);
    PlusCommutes(b, x);
    PlusAssociates(x, b, y);
    PlusAssociates(a, x, Plus(b, y));
  }

  lemma PlusNothing(k: bv16)
    ensures Plus(k, 0) == k == Plus(0, k) && Plus(k, k) == 0
  {
  }

  lemma HalvesAdd(x: bv16, y: bv16)
    ensures Half(Plus(x, y)) == Plus(Half(x), Half(y))
    ensures Low(Plus(x, y)) <==> Low(x) != Low(y)
  {
    XorOneBit(x, y);
  }

  lemma TermsAdd(a: bool, b: bool, k: bv16)
    ensures Term(a != b, k) == Plus(Term(a, k), Term(b, k))
  {
    hide Plus;
    PlusNothing(k);
    PlusNothing(0);
  }

  lemma {:induction false} SpreadAdds(x: bv16, y: bv16, n: nat)
    ensures Spread(Plus(x, y), n) == Plus(Spread(x, n), Spread(y, n))
    decreases n
  {
    hide Column, Plus, Half, Low, Term;
    if n == 0 {
      PlusNothing(0);
    } else {
      HalvesAdd(x, y);
      SpreadAdds(Half(x), Half(y), n - 1);
      TermsAdd(Low(x), Low(y), Column(n));
      PlusShuffles(Term(Low(x), Column(n)), Term(Low(y), Column(n)), Spread(Half(x), n - 1),
                   Spread(Half(y), n - 1));
    }
  }

  lemma PlusBits(x: bv16, y: bv16)
    ensures WordBits(Plus(x, y)) == Xor(WordBits(x), WordBits(y))
  {
    hide WordBits;
    WordBitsXor(x, y);
  }

  lemma DownAdds(x: bv16, y: bv16)
    ensures Down16(Plus(x, y)) == Plus(Down16(x), Down16(y))
  {
    hide Down16, WordBits, Plus;
    PlusBits(x, y);
    PlusBits(Down16(x), Down16(y));
    DownIsStep16(x);
    DownIsStep16(y);
    DownIsStep16(Plus(x, y));
    StepLinear(G16, WordBits(x), WordBits(y), false, false);
    WordBitsInjective(Down16(Plus(x, y)), Plus(Down16(x), Down16(y)));
  }

  function DownTwice(c: bv16): (d: bv16) {
    Down16(Down16(c))
  }

  lemma DownTwiceAdds(x: bv16, y: bv16)
    ensures DownTwice(Plus(x, y)) == Plus(DownTwice(x), DownTwice(y))
  {
    hide Down16, Plus;
    DownAdds(x, y);
    DownAdds(Down16(x), Down16(y));
  }

  lemma DownTwiceTerm(on: bool, k: bv16)
    ensures DownTwice(Term(on, k)) == Term(on, DownTwice(k))
  {
    assert DownTwice(0) == 0;
  }

  lemma ColumnsGoDown(n: nat)
    requires 0 < n < 16
    ensures DownTwice(Column(n)) == Column(n + 1)
  {
    match n
    case 1 => case 2 => case 3 => case 4 => case 5 => case 6 => case 7 => case 8 =>
    case 9 => case 10 => case 11 => case 12 => case 13 => case 14 => case _ =>
  }

  lemma ZeroSpreads()
    ensures Spread(0, 1) == 0 && DownTwice(0) == 0
  {
    assert Half(0) == 0 && !Low(0);
  }

  lemma NothingLeft(d: bv16, n: nat)
    requires ShiftRight(d, n) == 0
    ensures n == 0 ==> d == 0
    ensures n > 0 ==> ShiftRight(Half(d), n - 1) == 0
  {
  }

  lemma {:induction false} SpreadGoesDown(d: bv16, n: nat)
    requires n < 16 && ShiftRight(d, n) == 0
    ensures DownTwice(Spread(d, n)) == Spread(d, n + 1)
    decreases n
  {
    hide Column, DownTwice, Plus, Half, Low, Term;
    NothingLeft(d, n);
    if n == 0 {
      ZeroSpreads();
    } else {
      SpreadGoesDown(Half(d), n - 1);
      ColumnsGoDown(n);
      DownTwiceTerm(Low(d), Column(n));
      DownTwiceAdds(Term(Low(d), Column(n)), Spread(Half(d), n - 1));
    }
  }

  /** The generator squared is what its leading term squared leaves. */
  lemma SquareOfGenerator()
    ensures Square16(0x8408) == DownTwice(Column(16))
  {
  }

  lemma LowIsOne(c: bv16)
    ensures Low(c) <==> c & 1 == 1
  {
  }

  lemma DownSplits(c: bv16)
    ensures Down16(c) == Plus(Half(c), Term(Low(c), 0x8408))
  {
    hide Low;
    LowIsOne(c);
    PlusNothing(Half(c));
  }

  lemma SpreadOfTerm(on: bool, k: bv16)
    ensures Square16(Term(on, k)) == Term(on, Square16(k))
  {
    assert Square16(0) == 0;
  }

  lemma SquareOfDownTwice(c: bv16)
    ensures Square16(Down16(c)) == DownTwice(Square16(c))
  {
    hide Down16, Column, DownTwice, Plus, Half, Low, Term, Square16;
    SquareIsSpread(c);
    SquareIsSpread(Down16(c));
    SquareIsSpread(Term(Low(c), 0x8408));
    var d, b := Half(c), Low(c);
    NothingAbove(c);
    NothingLeft(c, 16);
    SpreadGoesDown(d, 15);
    DownTwiceAdds(Term(b, Column(16)), Spread(d, 15));
    DownTwiceTerm(b, Column(16));
    DownSplits(c);
    SpreadAdds(d, Term(b, 0x8408), 16);
    SpreadOfTerm(b, 0x8408);
    SquareOfGenerator();
    PlusCommutes(Spread(d, 16), Term(b, DownTwice(Column(16))));
  }

  /** Squaring turns a multiplication by x into one by x^2. */
  lemma SquareOfDown16(c: bv16)
    ensures Square16(Down16(c)) == Down16(Down16(Square16(c)))
  {
    hide Down16, Square16;
    SquareOfDownTwice(c);
  }

  lemma SquareOfUnit16()
    ensures Square16(0x8000) == 0x8000
  {
  }

  lemma {:induction false} SquareDoubles16(k: nat)
    ensures Falls16(0x8000, 2 * k) == Square16(Falls16(0x8000, k))
    decreases k
  {
    hide Down16, Square16, Falls16;
    if k == 0 {
      SquareOfUnit16();
      NoFalls16(0x8000);
    } else {
      SquareDoubles16(k - 1);
      var c := Falls16(0x8000, k - 1);
      OneMoreFall16(0x8000, k - 1);
      OneMoreFall16(0x8000, 2 * k - 2);
      OneMoreFall16(0x8000, 2 * k - 1);
      SquareOfDown16(c);
    }
  }

  lemma NoFalls16(c: bv16)
    ensures Falls16(c, 0) == c
  {
  }

  lemma NextPower16(k: nat, c: bv16)
    requires Falls16(0x8000, k) == c
    ensures Falls16(0x8000, 2 * k) == Square16(c)
    ensures Falls16(0x8000, 2 * k + 1) == Down16(Square16(c))
  {
    hide Down16, Square16, Falls16;
    SquareDoubles16(k);
    OneMoreFall16(0x8000, 2 * k);
  }

  /** Exponents reached from 0 by doubling, and doubling and adding one, in four chains that end in
      217, 1057, 4681 and 32767. */
  function Exponent(i: nat): (k: nat) {
    match i
    case 0 => 0 case 1 => 1 case 2 => 3 case 3 => 6 case 4 => 13 case 5 => 27
    case 6 => 54 case 7 => 108 case 8 => 217 case 9 => 0 case 10 => 1 case 11 => 2
    case 12 => 4 case 13 => 8 case 14 => 16 case 15 => 33 case 16 => 66 case 17 => 132
    case 18 => 264 case 19 => 528 case 20 => 1057 case 21 => 0 case 22 => 1 case 23 => 2
    case 24 => 4 case 25 => 9 case 26 => 18 case 27 => 36 case 28 => 73 case 29 => 146
    case 30 => 292 case 31 => 585 case 32 => 1170 case 33 => 2340 case 34 => 4681 case 35 => 0
    case 36 => 1 case 37 => 3 case 38 => 7 case 39 => 15 case 40 => 31 case 41 => 63
    case 42 => 127 case 43 => 255 case 44 => 511 case 45 => 1023 case 46 => 2047 case 47 => 4095
    case 48 => 8191 case 49 => 16383 case _ => 32767
  }

  /** The powers of x with these exponents. */
  function PowerOfX(i: nat): (c: bv16) {
    match i
    case 0 => 0x8000 case 1 => 0x4000 case 2 => 0x1000 case 3 => 0x0200 case 4 => 0x0004 case 5 => 0x9591
    case 6 => 0x1688 case 7 => 0x0aec case 8 => 0xc712 case 9 => 0x8000 case 10 => 0x4000 case 11 => 0x2000
    case 12 => 0x0800 case 13 => 0x0080 case 14 => 0x8408 case 15 => 0x0676 case 16 => 0x6383 case 17 => 0x5172
    case 18 => 0x629a case 19 => 0xcd1e case 20 => 0xf54f case 21 => 0x8000 case 22 => 0x4000 case 23 => 0x2000
    case 24 => 0x0800 case 25 => 0x0040 case 26 => 0x2102 case 27 => 0xc6c2 case 28 => 0x65f1 case 29 => 0x11c2
    case 30 => 0x69c8 case 31 => 0x00a2 case 32 => 0xc680 case 33 => 0x2420 case 34 => 0x4234 case 35 => 0x8000
    case 36 => 0x4000 case 37 => 0x1000 case 38 => 0x0100 case 39 => 0x0001 case 40 => 0x19d8 case 41 => 0x042b
    case 42 => 0x7eea case 43 => 0x20f3 case 44 => 0x7f90 case 45 => 0x46d8 case 46 => 0x157e case 47 => 0xf2aa
    case 48 => 0x7022 case 49 => 0x3444 case _ => 0x8000
  }

  predicate ChainStep(i: nat) {
    var k, c := Exponent(i + 1), PowerOfX(i + 1);
    if k == 0 then c == 0x8000
    else if k % 2 == 0 then k == 2 * Exponent(i) && c == Square16(PowerOfX(i))
    else k == 2 * Exponent(i) + 1 && c == Down16(Square16(PowerOfX(i)))
  }

  lemma ChainSteps0(i: nat)
    requires 0 <= i < 6
    ensures ChainStep(i)
  {
    match i
    case 0 => case 1 => case 2 => case 3 => case 4 => case _ =>
  }

  lemma ChainSteps1(i: nat)
    requires 6 <= i < 12
    ensures ChainStep(i)
  {
    match i
    case 6 => case 7 => case 8 => case 9 => case 10 => case _ =>
  }

  lemma ChainSteps2(i: nat)
    requires 12 <= i < 18
    ensures ChainStep(i)
  {
    match i
    case 12 => case 13 => case 14 => case 15 => case 16 => case _ =>
  }

  lemma ChainSteps3(i: nat)
    requires 18 <= i < 24
    ensures ChainStep(i)
  {
    match i
    case 18 => case 19 => case 20 => case 21 => case 22 => case _ =>
  }

  lemma ChainSteps4(i: nat)
    requires 24 <= i < 30
    ensures ChainStep(i)
  {
    match i
    case 24 => case 25 => case 26 => case 27 => case 28 => case _ =>
  }

  lemma ChainSteps5(i: nat)
    requires 30 <= i < 36
    ensures ChainStep(i)
  {
    match i
    case 30 => case 31 => case 32 => case 33 => case 34 => case _ =>
  }

  lemma ChainSteps6(i: nat)
    requires 36 <= i < 42
    ensures ChainStep(i)
  {
    match i
    case 36 => case 37 => case 38 => case 39 => case 40 => case _ =>
  }

  lemma ChainSteps7(i: nat)
    requires 42 <= i < 48
    ensures ChainStep(i)
  {
    match i
    case 42 => case 43 => case 44 => case 45 => case 46 => case _ =>
  }

  lemma ChainSteps8(i: nat)
    requires 48 <= i < 50
    ensures ChainStep(i)
  {
    match i
    case 48 => case _ =>
  }

  lemma ChainStepAt(i: nat)
    requires i < 50
    ensures ChainStep(i)
  {
    hide ChainStep;
    match i / 6
    case 0 => ChainSteps0(i);
    case 1 => ChainSteps1(i);
    case 2 => ChainSteps2(i);
    case 3 => ChainSteps3(i);
    case 4 => ChainSteps4(i);
    case 5 => ChainSteps5(i);
    case 6 => ChainSteps6(i);
    case 7 => ChainSteps7(i);
    case _ => ChainSteps8(i);
  }

  lemma {:induction false} ChainHolds(i: nat)
    requires i <= 50
    ensures Falls16(0x8000, Exponent(i)) == PowerOfX(i)
    decreases i
  {
    hide Falls16, Square16, Down16, Exponent, PowerOfX;
    ChainStarts();
    NoFalls16(0x8000);
    if i > 0 {
      ChainHolds(i - 1);
      ChainStepAt(i - 1);
      NextPower16(Exponent(i - 1), PowerOfX(i - 1));
    }
  }

  lemma ChainStarts()
    ensures Exponent(0) == 0 && PowerOfX(0) == 0x8000
  {
  }

  lemma ChainEnds()
    ensures Falls16(0x8000, 217) != 0x8000 && Falls16(0x8000, 1057) != 0x8000
    ensures Falls16(0x8000, 4681) != 0x8000 && Falls16(0x8000, 32767) == 0x8000
  {
    hide Falls16;
    ChainHolds(8);
    ChainHolds(20);
    ChainHolds(34);
    ChainHolds(50);
  }

  /** x to the 32767 is one, and no smaller candidate power is. */
  lemma PowersOfX16()
    ensures Returns(G16, 32767)
    ensures !Returns(G16, 217) && !Returns(G16, 1057) && !Returns(G16, 4681)
  {
    hide Falls16, Returns;
    ChainEnds();
    ReturnsAsWord16(217);
    ReturnsAsWord16(1057);
    ReturnsAsWord16(4681);
    ReturnsAsWord16(32767);
  }

  lemma ReturnsAsWord16(k: nat)
    ensures Returns(G16, k) <==> Falls16(0x8000, k) == 0x8000
  {
    hide Falls16, Down16, Rem, WordBits;
    var g := GeneratorAsWord16();
    var c := Falls16(0x8000, k);
    FallsDivide16(g, k);
    UnitFalls16();
    FallsAdd16(0x8000, 16, k);
    FallsAdd16(0x8000, k, 16);
    if Falls16(g, k) == g {
      FallsInjective16(c, 0x8000, 16);
    }
    if WordBits(Falls16(g, k)) == WordBits(g) {
      WordBitsInjective(Falls16(g, k), g);
    }
  }

  lemma GeneratorAsWord16() returns (g: bv16)
    ensures g == 0x8408 && WordBits(g) == G16
  {
    GeneratorWords();
    g := 0x8408;
  }

  lemma UnitFalls16()
    ensures Falls16(0x8000, 16) == 0x8408
  {
    hide Falls16;
    ChainHolds(14);
  }

  /** The order of x: the register returns exactly after the multiples of 32767 zero bits. */
  lemma OrderOfX16(k: nat)
    ensures Returns(G16, k) <==> k % 32767 == 0
  {
    hide Falls16, Returns;
    PowersOfX16();
    forall m: nat | 0 < m < 32767 && 32767 % m == 0
      ensures exists i :: 0 <= i < |[4681, 1057, 217]| && ([4681, 1057, 217])[i] % m == 0
    {
      ProperDivisorOf32767(m);
      var qs: seq<nat> := [4681, 1057, 217];
      assert qs[0] % m == 0 || qs[1] % m == 0 || qs[2] % m == 0;
    }
    ReturnsExactly(G16, 32767, [4681, 1057, 217], k);
  }

  // ------------------------------------------------------------------- CRC8

  /** The register after `k` zero bits. */
  function Falls8(c: bv8, k: nat): (d: bv8)
    decreases k
  {
    if k == 0 then c else Falls8(Down8(c), k - 1)
  }

  lemma {:induction false} FallsDivide8(c: bv8, k: nat)
    ensures ByteBits(Falls8(c, k)) == Rem(G8, ByteBits(c), Zeros(k))
    decreases k
  {
    if k > 0 {
      DownIsStep8(c);
      OneZeroFirst(k);
      FallsDivide8(Down8(c), k - 1);
    }
  }

  lemma {:induction false} FallsAdd8(c: bv8, j: nat, k: nat)
    ensures Falls8(c, j + k) == Falls8(Falls8(c, j), k)
    decreases j
  {
    if j > 0 {
      FallsAdd8(Down8(c), j - 1, k);
    }
  }

  lemma OneMoreFall8(c: bv8, k: nat)
    ensures Falls8(c, k + 1) == Down8(Falls8(c, k))
  {
    hide Down8;
    FallsAdd8(c, k, 1);
    var d := Falls8(c, k);
    assert Falls8(d, 1) == Falls8(Down8(d), 0);
  }

  lemma DownInjective8(c: bv8, d: bv8)
    ensures Down8(c) == Down8(d) ==> c == d
  {
  }

  lemma {:induction false} FallsInjective8(c: bv8, d: bv8, k: nat)
    requires Falls8(c, k) == Falls8(d, k)
    ensures c == d
    decreases k
  {
    hide Down8;
    if k > 0 {
      FallsInjective8(Down8(c), Down8(d), k - 1);
      DownInjective8(c, d);
    }
  }

  /** The square of a remainder: the map that doubles every exponent. */
  function Square8(c: bv8): (d: bv8) {
    (if c & 0x01 != 0 then 0xbc else 0)
    ^ (if c & 0x02 != 0 then 0xc2 else 0)
    ^ (if c & 0x04 != 0 then 0x23 else 0)
    ^ (if c & 0x08 != 0 then 0x8c else 0)
    ^ (if c & 0x10 != 0 then 0x02 else 0)
    ^ (if c & 0x20 != 0 then 0x08 else 0)
    ^ (if c & 0x40 != 0 then 0x20 else 0)
    ^ (if c & 0x80 != 0 then 0x80 else 0)
  }

  lemma SquareOfEven(c: bv8)
    requires c & 1 == 0
    ensures Square8(c >> 1) == Down8(Down8(Square8(c)))
  {
  }

  lemma SquareOfOdd(c: bv8)
    requires c & 1 == 1
    ensures Square8((c >> 1) ^ 0x8c) == Down8(Down8(Square8(c)))
  {
  }

  /** Squaring turns a multiplication by x into one by x^2. */
  lemma SquareOfDown8(c: bv8)
    ensures Square8(Down8(c)) == Down8(Down8(Square8(c)))
  {
    hide Square8;
    if c & 1 == 1 {
      SquareOfOdd(c);
    } else {
      SquareOfEven(c);
    }
  }

  lemma SquareOfUnit8()
    ensures Square8(0x80) == 0x80
  {
  }

  lemma {:induction false} SquareDoubles8(k: nat)
    ensures Falls8(0x80, 2 * k) == Square8(Falls8(0x80, k))
    decreases k
  {
    hide Down8, Square8, Falls8;
    if k == 0 {
      SquareOfUnit8();
      NoFalls8(0x80);
    } else {
      SquareDoubles8(k - 1);
      var c := Falls8(0x80, k - 1);
      OneMoreFall8(0x80, k - 1);
      OneMoreFall8(0x80, 2 * k - 2);
      OneMoreFall8(0x80, 2 * k - 1);
      SquareOfDown8(c);
    }
  }

  lemma NoFalls8(c: bv8)
    ensures Falls8(c, 0) == c
  {
  }

  lemma NextPower8(k: nat, c: bv8)
    requires Falls8(0x80, k) == c
    ensures Falls8(0x80, 2 * k) == Square8(c)
    ensures Falls8(0x80, 2 * k + 1) == Down8(Square8(c))
  {
    hide Down8, Square8, Falls8;
    SquareDoubles8(k);
    OneMoreFall8(0x80, 2 * k);
  }

  lemma Power8To1()
    ensures Falls8(0x80, 1) != 0x80
  {
    hide Falls8;
    NoFalls8(0x80);
    NextPower8(0, 0x80);
  }

  lemma Power8To127()
    ensures Falls8(0x80, 127) == 0x80
  {
    hide Falls8;
    NoFalls8(0x80);
    NextPower8(0, 0x80); NextPower8(1, 0x40); NextPower8(3, 0x10);
    NextPower8(7, 0x01); NextPower8(15, 0x5e); NextPower8(31, 0xab);
    NextPower8(63, 0x3d);
  }

  /** x to the 127 is one, and no smaller candidate power is. */
  lemma PowersOfX8()
    ensures Returns(G8, 127)
    ensures !Returns(G8, 1)
  {
    hide Falls8, Returns;
    Power8To1();
    ReturnsAsWord8(1);
    Power8To127();
    ReturnsAsWord8(127);
  }

  lemma ReturnsAsWord8(k: nat)
    ensures Returns(G8, k) <==> Falls8(0x80, k) == 0x80
  {
    hide Falls8, Down8, Rem, ByteBits;
    var g := GeneratorAsWord8();
    var c := Falls8(0x80, k);
    FallsDivide8(g, k);
    UnitFalls8();
    FallsAdd8(0x80, 8, k);
    FallsAdd8(0x80, k, 8);
    if Falls8(g, k) == g {
      FallsInjective8(c, 0x80, 8);
    }
    if ByteBits(Falls8(g, k)) == ByteBits(g) {
      ByteBitsInjective(Falls8(g, k), g);
    }
  }

  lemma GeneratorAsWord8() returns (g: bv8)
    ensures g == 0x8c && ByteBits(g) == G8
  {
    GeneratorWords();
    g := 0x8c;
  }

  lemma UnitFalls8()
    ensures Falls8(0x80, 8) == 0x8c
  {
    hide Falls8;
    NoFalls8(0x80);
    NextPower8(0, 0x80); NextPower8(1, 0x40); NextPower8(2, 0x20);
    NextPower8(4, 0x08);
  }

  /** The order of x: the register returns exactly after the multiples of 127 zero bits. */
  lemma OrderOfX8(k: nat)
    ensures Returns(G8, k) <==> k % 127 == 0
  {
    hide Falls8, Returns;
    PowersOfX8();
    forall m: nat | 0 < m < 127 && 127 % m == 0
      ensures exists i :: 0 <= i < |[1]| && ([1])[i] % m == 0
    {
      ProperDivisorOf127(m);
      var qs: seq<nat> := [1];
      assert qs[0] % m == 0;
    }
    ReturnsExactly(G8, 127, [1], k);
  }
}
