/** Polynomials over GF(2) as bit strings, highest power first, and the remainder of
    a long division carried out one bit at a time. A generator of degree `n` is given
    by its `n` coefficients below the leading one, so its last element is the constant
    term. Nothing here knows about bytes, machine words or lookup tables. */
module Gf2 {

  type Bits = seq<bool>

  function Zeros(n: nat): (z: Bits) {
    seq(n, _ => false)
  }

  function Ones(n: nat): (z: Bits) {
    seq(n, _ => true)
  }

  function Xor(a: Bits, b: Bits): (c: Bits)
    requires |a| == |b|
    ensures |c| == |a|
  {
    seq(|a|, i requires 0 <= i < |a| => a[i] != b[i])
  }

  function Scale(k: bool, g: Bits): (c: Bits) {
    if k then g else Zeros(|g|)
  }

  /** A generator the divisions below work with: it has a degree and a constant term. */
  predicate Generator(g: Bits) {
    |g| > 0 && g[|g| - 1]
  }

  /** One step of the division: bring down `bit`, subtract the generator if the leading
      coefficient is one. */
  function Step(g: Bits, r: Bits, bit: bool): (r': Bits)
    requires |r| == |g| > 0
    ensures |r'| == |g|
  {
    Xor(r[1..] + [false], Scale(r[0] != bit, g))
  }

  /** The remainder after `x` has been brought down bit by bit, starting from `r`. */
  function Rem(g: Bits, r: Bits, x: Bits): (r': Bits)
    requires |r| == |g| > 0
    ensures |r'| == |g|
    decreases |x|
  {
    if |x| == 0 then r else Rem(g, Step(g, r, x[0]), x[1..])
  }

  lemma {:induction false} RemConcat(g: Bits, r: Bits, x: Bits, y: Bits)
    requires |r| == |g| > 0
    ensures Rem(g, r, x + y) == Rem(g, Rem(g, r, x), y)
    decreases |x|
  {
    if |x| == 0 {
      assert x + y == y;
    } else {
      assert (x + y)[1..] == x[1..] + y;
      RemConcat(g, Step(g, r, x[0]), x[1..], y);
    }
  }

  /** A step, coefficient by coefficient. */
  lemma StepAt(g: Bits, r: Bits, bit: bool, i: nat)
    requires i < |r| == |g|
    ensures Step(g, r, bit)[i]
        == ((if i + 1 < |g| then r[i + 1] else false) != ((r[0] != bit) && g[i]))
  {
    assert (r[1..] + [false])[i] == if i + 1 < |g| then r[i + 1] else false;
    assert Scale(r[0] != bit, g)[i] == ((r[0] != bit) && g[i]);
  }

  lemma StepLinear(g: Bits, r: Bits, s: Bits, b: bool, c: bool)
    requires |r| == |s| == |g| > 0
    ensures Step(g, Xor(r, s), b != c) == Xor(Step(g, r, b), Step(g, s, c))
  {
    var sum, x, y := Xor(r, s), Step(g, r, b), Step(g, s, c);
    var z := Step(g, sum, b != c);
    hide Step;
    forall i | 0 <= i < |g| ensures z[i] == Xor(x, y)[i] {
      StepAt(g, r, b, i);
      StepAt(g, s, c, i);
      StepAt(g, sum, b != c, i);
    }
  }

  /** Division is linear: the remainder of a sum is the sum of the remainders. */
  lemma {:induction false} RemLinear(g: Bits, r: Bits, s: Bits, x: Bits, y: Bits)
    requires |r| == |s| == |g| > 0 && |x| == |y|
    ensures Rem(g, Xor(r, s), Xor(x, y)) == Xor(Rem(g, r, x), Rem(g, s, y))
    decreases |x|
  {
    if |x| > 0 {
      StepLinear(g, r, s, x[0], y[0]);
      assert Xor(x, y)[1..] == Xor(x[1..], y[1..]);
      RemLinear(g, Step(g, r, x[0]), Step(g, s, y[0]), x[1..], y[1..]);
    }
  }

  lemma XorZeros(x: Bits)
    ensures Xor(x, Zeros(|x|)) == x == Xor(Zeros(|x|), x)
  {
  }

  lemma XorCommutes(x: Bits, y: Bits)
    requires |x| == |y|
    ensures Xor(x, y) == Xor(y, x)
  {
  }

  lemma XorSelf(x: Bits)
    ensures Xor(x, x) == Zeros(|x|)
  {
  }

  lemma XorCons(a: bool, x: Bits, b: bool, y: Bits)
    requires |x| == |y|
    ensures Xor([a] + x, [b] + y) == [a != b] + Xor(x, y)
  {
  }

  lemma RemOfSum(g: Bits, x: Bits, y: Bits)
    requires |g| > 0 && |x| == |y|
    ensures Rem(g, Zeros(|g|), Xor(x, y)) == Xor(Rem(g, Zeros(|g|), x), Rem(g, Zeros(|g|), y))
  {
    XorZeros(Zeros(|g|));
    RemLinear(g, Zeros(|g|), Zeros(|g|), x, y);
  }

  lemma {:induction false} RemOfZeros(g: Bits, n: nat)
    requires |g| > 0
    ensures Rem(g, Zeros(|g|), Zeros(n)) == Zeros(|g|)
  {
    if n > 0 {
      StepOfZeros(g);
      assert Zeros(n)[1..] == Zeros(n - 1);
      RemOfZeros(g, n - 1);
    }
  }

  lemma StepOfZeros(g: Bits)
    requires |g| > 0
    ensures Step(g, Zeros(|g|), false) == Zeros(|g|)
  {
  }

  lemma AbsorbStep(g: Bits, r: Bits, x: Bits)
    requires 0 < |x| <= |r| == |g|
    ensures Step(g, Xor(r, x + Zeros(|g| - |x|)), false)
         == Xor(Step(g, r, x[0]), x[1..] + Zeros(|g| - |x| + 1))
  {
    var p, q := x + Zeros(|g| - |x|), x[1..] + Zeros(|g| - |x| + 1);
    var sum := Xor(r, p);
    var y, z := Step(g, r, x[0]), Step(g, sum, false);
    hide Step;
    forall i | 0 <= i < |g| ensures z[i] == Xor(y, q)[i] {
      StepAt(g, r, x[0], i);
      StepAt(g, sum, false, i);
      assert q[i] == if i + 1 < |g| then p[i + 1] else false;
    }
  }

  lemma ZerosTail(n: nat)
    ensures n > 0 ==> Zeros(n)[1..] == Zeros(n - 1)
  {
  }

  /** Bits fed in are the same as bits added to the register beforehand. */
  lemma {:induction false} Absorb(g: Bits, r: Bits, x: Bits)
    requires |x| <= |r| == |g| && |g| > 0
    ensures Rem(g, r, x) == Rem(g, Xor(r, x + Zeros(|g| - |x|)), Zeros(|x|))
    decreases |x|
  {
    if |x| == 0 {
      XorZeros(r);
    } else {
      AbsorbStep(g, r, x);
      ZerosTail(|x|);
      Absorb(g, Step(g, r, x[0]), x[1..]);
    }
  }

  /** A register whose leading `k` coefficients are zero is only shifted by `k` zero bits. */
  lemma {:induction false} ShiftOut(g: Bits, r: Bits, k: nat)
    requires k <= |r| == |g| && |g| > 0 && r[..k] == Zeros(k)
    ensures Rem(g, r, Zeros(k)) == r[k..] + Zeros(k)
    decreases k
  {
    if k == 0 {
      assert r[0..] + Zeros(0) == r;
    } else {
      assert r[0] == r[..k][0] == false;
      var r' := Step(g, r, false);
      assert r' == r[1..] + [false];
      assert Zeros(k)[1..] == Zeros(k - 1);
      forall i | 0 <= i < k - 1 ensures r'[i] == false { assert r'[i] == r[..k][i + 1]; }
      assert r'[..k - 1] == Zeros(k - 1);
      ShiftOut(g, r', k - 1);
      assert r'[k - 1..] + Zeros(k - 1) == r[k..] + Zeros(k);
    }
  }

  /** No more than `|g|` bits drive the register to zero in exactly one way: they have to
      equal its leading coefficients, and the other coefficients have to be zero already. */
  lemma {:induction false} ZeroRemainder(g: Bits, r: Bits, x: Bits)
    requires Generator(g) && |r| == |g| && |x| <= |g|
    ensures Rem(g, r, x) == Zeros(|g|) <==> r == x + Zeros(|g| - |x|)
    decreases |x|
  {
    var n := |g|;
    if |x| == 0 {
      assert x + Zeros(n) == Zeros(n);
    } else {
      var r' := Step(g, r, x[0]);
      ZeroRemainder(g, r', x[1..]);
      var tail := x[1..] + Zeros(n - |x| + 1);
      assert r'[n - 1] == (r[0] != x[0]);
      assert tail[n - 1] == false;
      if r' == tail {
        assert r' == r[1..] + [false];
        forall i | 0 <= i < n ensures r[i] == (x + Zeros(n - |x|))[i] {
          if i > 0 { assert r[i] == r'[i - 1] == tail[i - 1]; }
        }
      }
      if r == x + Zeros(n - |x|) {
        assert r' == tail;
      }
    }
  }

  /** Zero bits never hide a nonzero remainder and never create one. */
  lemma {:induction false} ZerosKeepNonzero(g: Bits, r: Bits, n: nat)
    requires Generator(g) && |r| == |g|
    ensures Rem(g, r, Zeros(n)) == Zeros(|g|) <==> r == Zeros(|g|)
    decreases n
  {
    if n > 0 {
      ZeroRemainder(g, r, [false]);
      assert Rem(g, r, [false]) == Step(g, r, false);
      assert [false] + Zeros(|g| - 1) == Zeros(|g|);
      assert Zeros(n)[1..] == Zeros(n - 1);
      ZerosKeepNonzero(g, Step(g, r, false), n - 1);
    }
  }

  lemma ShortNotDivisible(g: Bits, w: Bits)
    requires Generator(g) && |w| <= |g| && w != Zeros(|w|)
    ensures Rem(g, Zeros(|g|), w) != Zeros(|g|)
  {
    ZeroRemainder(g, Zeros(|g|), w);
    var i :| 0 <= i < |w| && w[i];
    assert (w + Zeros(|g| - |w|))[i];
  }

  /** A nonzero error confined to `|g|` consecutive bits is never divisible. */
  lemma BurstNotDivisible(g: Bits, i: nat, w: Bits, j: nat)
    requires Generator(g) && |w| <= |g| && w != Zeros(|w|)
    ensures Rem(g, Zeros(|g|), Zeros(i) + w + Zeros(j)) != Zeros(|g|)
  {
    var z := Zeros(|g|);
    calc {
      Rem(g, z, Zeros(i) + w + Zeros(j));
    ==  { RemConcat(g, z, Zeros(i) + w, Zeros(j)); }
      Rem(g, Rem(g, z, Zeros(i) + w), Zeros(j));
    ==  { RemConcat(g, z, Zeros(i), w); }
      Rem(g, Rem(g, Rem(g, z, Zeros(i)), w), Zeros(j));
    ==  { RemOfZeros(g, i); }
      Rem(g, Rem(g, z, w), Zeros(j));
    }
    ShortNotDivisible(g, w);
    ZerosKeepNonzero(g, Rem(g, z, w), j);
  }

  // ------------------------------------------- a single bit followed by zeros

  lemma BringDownBit(g: Bits, r: Bits)
    requires |r| == |g| > 0
    ensures Rem(g, r, [true]) == Step(g, r, true) && Rem(g, r, [false]) == Step(g, r, false)
  {
    hide Step;
    assert [true][1..] == [] && [false][1..] == [];
  }

  /** What is left of a single set bit with zeros before and after it. */
  lemma SingleBitRemainder(g: Bits, before: nat, after: nat)
    requires |g| > 0
    ensures Rem(g, Zeros(|g|), Zeros(before) + [true] + Zeros(after)) == Rem(g, g, Zeros(after))
  {
    hide Rem, Step;
    var z := Zeros(|g|);
    RemConcat(g, z, Zeros(before) + [true], Zeros(after));
    RemConcat(g, z, Zeros(before), [true]);
    RemOfZeros(g, before);
    BringDownBit(g, z);
    StepIntoZero(g);
  }

  lemma OneMoreZero(g: Bits, m: nat)
    requires |g| > 0
    ensures Rem(g, g, Zeros(m + 1)) == Step(g, Rem(g, g, Zeros(m)), false)
  {
    hide Rem, Step;
    assert Zeros(m + 1) == Zeros(m) + [false];
    RemConcat(g, g, Zeros(m), [false]);
    BringDownBit(g, Rem(g, g, Zeros(m)));
  }

  /** True when an odd number of bits is set. */
  function Odd(x: Bits): (p: bool) {
    if |x| == 0 then false else x[0] != Odd(x[1..])
  }

  lemma {:induction false} OddConcat(x: Bits, y: Bits)
    ensures Odd(x + y) == (Odd(x) != Odd(y))
  {
    if |x| == 0 {
      assert x + y == y;
    } else {
      assert (x + y)[1..] == x[1..] + y;
      OddConcat(x[1..], y);
    }
  }

  lemma {:induction false} OddXor(x: Bits, y: Bits)
    requires |x| == |y|
    ensures Odd(Xor(x, y)) == (Odd(x) != Odd(y))
  {
    if |x| > 0 {
      assert Xor(x, y)[1..] == Xor(x[1..], y[1..]);
      OddXor(x[1..], y[1..]);
    }
  }

  lemma {:induction false} OddZeros(n: nat)
    ensures !Odd(Zeros(n))
  {
    if n > 0 {
      assert Zeros(n)[1..] == Zeros(n - 1);
      OddZeros(n - 1);
    }
  }

  /** With a generator divisible by x + 1 the parity of the register follows the parity
      of the bits consumed. */
  lemma {:induction false} OddRem(g: Bits, r: Bits, x: Bits)
    requires |r| == |g| > 0 && Odd(g)
    ensures Odd(Rem(g, r, x)) == (Odd(r) != Odd(x))
    decreases |x|
  {
    if |x| > 0 {
      var k := r[0] != x[0];
      OddXor(r[1..] + [false], Scale(k, g));
      OddConcat(r[1..], [false]);
      OddZeros(|g|);
      OddRem(g, Step(g, r, x[0]), x[1..]);
    }
  }

  /** The product of two polynomials, `g` with its leading coefficient made explicit. */
  function Mul(q: Bits, g: Bits): (p: Bits)
    ensures |p| == |q| + |g|
    decreases |q|
  {
    if |q| == 0 then Zeros(|g|)
    else Xor(Scale(q[0], [true] + g) + Zeros(|q| - 1), [false] + Mul(q[1..], g))
  }

  /** The quotient that the division above produces bit by bit. */
  function Quotient(g: Bits, r: Bits, x: Bits): (q: Bits)
    requires |r| == |g| > 0 && |x| >= |g|
    ensures |q| == |x| - |g|
    decreases |x|
  {
    if |x| == |g| then []
    else [r[0] != x[0]] + Quotient(g, Step(g, r, x[0]), x[1..])
  }

  /** What the division leaves under the last `|g|` bits of the dividend. */
  function Leftover(g: Bits, r: Bits, x: Bits): (s: Bits)
    requires |r| == |g| > 0 && |x| >= |g|
    ensures |s| == |g|
    decreases |x|
  {
    if |x| == |g| then Xor(x, r) else Leftover(g, Step(g, r, x[0]), x[1..])
  }

  lemma {:induction false} LeftoverZero(g: Bits, r: Bits, x: Bits)
    requires Generator(g) && |r| == |g| && |x| >= |g|
    ensures Rem(g, r, x) == Zeros(|g|) <==> Leftover(g, r, x) == Zeros(|g|)
    decreases |x|
  {
    if |x| == |g| {
      ZeroRemainder(g, r, x);
      assert x + Zeros(0) == x;
      if Xor(x, r) == Zeros(|g|) {
        forall i | 0 <= i < |g| ensures r[i] == x[i] { assert Xor(x, r)[i] == Zeros(|g|)[i]; }
        assert r == x;
      }
    } else {
      LeftoverZero(g, Step(g, r, x[0]), x[1..]);
    }
  }

  lemma FirstStepAt(g: Bits, r: Bits, x: Bits, m: nat, i: nat, lead: Bits, rest: Bits)
    requires |r| == |g| > 0 && |x| == |g| + m && m > 0 && i < |x|
    requires lead == Scale(r[0] != x[0], [true] + g) + Zeros(m - 1)
    requires rest == Xor(x[1..], Step(g, r, x[0]) + Zeros(m - 1))
    ensures Xor(x, r + Zeros(m))[i] == Xor(lead, [false] + rest)[i]
  {
    hide Step;
    var k := r[0] != x[0];
    assert lead[i] == (i <= |g| && k && (i == 0 || g[i - 1]));
    if i > 0 {
      assert rest[i - 1] == (x[i] != (Step(g, r, x[0]) + Zeros(m - 1))[i - 1]);
      if i <= |g| {
        StepAt(g, r, x[0], i - 1);
      }
    }
  }

  /** The dividend with the first step of the division written out. */
  lemma FirstStep(g: Bits, r: Bits, x: Bits)
    requires |r| == |g| > 0 && |x| > |g|
    ensures var k, m := r[0] != x[0], |x| - |g|;
            Xor(x, r + Zeros(m)) == Xor(Scale(k, [true] + g) + Zeros(m - 1),
                                        [false] + Xor(x[1..], Step(g, r, x[0]) + Zeros(m - 1)))
  {
    var k, m := r[0] != x[0], |x| - |g|;
    var r' := Step(g, r, x[0]);
    var rest := Xor(x[1..], r' + Zeros(m - 1));
    var lead := Scale(k, [true] + g) + Zeros(m - 1);
    var left, right := Xor(x, r + Zeros(m)), Xor(lead, [false] + rest);
    hide Step;
    forall i | 0 <= i < |x| ensures left[i] == right[i] {
      FirstStepAt(g, r, x, m, i, lead, rest);
    }
  }

  lemma XorShifted(lead: Bits, p: Bits, tail: Bits)
    requires |p| == |tail| && |lead| == |p| + 1
    ensures Xor(lead, [false] + Xor(p, tail)) == Xor(Xor(lead, [false] + p), [false] + tail)
  {
  }

  lemma NothingToDivide(g: Bits, r: Bits, x: Bits)
    requires |r| == |g| == |x| > 0
    ensures Xor(x, r + Zeros(0)) == Xor(Mul([], g), Zeros(0) + Leftover(g, r, x))
  {
    assert r + Zeros(0) == r;
    assert Xor(Zeros(|g|), Xor(x, r)) == Xor(x, r);
    assert Zeros(0) + Xor(x, r) == Xor(x, r);
  }

  lemma MulCons(k: bool, q: Bits, g: Bits)
    ensures Mul([k] + q, g) == Xor(Scale(k, [true] + g) + Zeros(|q|), [false] + Mul(q, g))
  {
    assert ([k] + q)[1..] == q;
  }

  lemma DivisionStep(g: Bits, r: Bits, x: Bits, r': Bits, q: Bits, rest: Bits)
    requires |r| == |g| == |rest| > 0 && |x| == |g| + |q| + 1 && r' == Step(g, r, x[0])
    requires Xor(x[1..], r' + Zeros(|q|)) == Xor(Mul(q, g), Zeros(|q|) + rest)
    ensures Xor(x, r + Zeros(|q| + 1))
         == Xor(Mul([r[0] != x[0]] + q, g), Zeros(|q| + 1) + rest)
  {
    var k, m := r[0] != x[0], |q|;
    var lead := Scale(k, [true] + g) + Zeros(m);
    calc {
      Xor(x, r + Zeros(m + 1));
    ==  { FirstStep(g, r, x); }
      Xor(lead, [false] + Xor(x[1..], r' + Zeros(m)));
      Xor(lead, [false] + Xor(Mul(q, g), Zeros(m) + rest));
    ==  { XorShifted(lead, Mul(q, g), Zeros(m) + rest); }
      Xor(Xor(lead, [false] + Mul(q, g)), [false] + (Zeros(m) + rest));
    ==  { MulCons(k, q, g); ZerosCons(m, rest); }
      Xor(Mul([k] + q, g), Zeros(m + 1) + rest);
    }
  }

  lemma ZerosCons(m: nat, rest: Bits)
    ensures [false] + (Zeros(m) + rest) == Zeros(m + 1) + rest
  {
  }

  /** Division with remainder: the dividend (with the initial register added to its leading
      bits) is the quotient times the generator plus what is left over. */
  lemma {:induction false} DivisionIdentity(g: Bits, r: Bits, x: Bits)
    requires |r| == |g| > 0 && |x| >= |g|
    ensures Xor(x, r + Zeros(|x| - |g|))
         == Xor(Mul(Quotient(g, r, x), g), Zeros(|x| - |g|) + Leftover(g, r, x))
    decreases |x|
  {
    var m := |x| - |g|;
    if m == 0 {
      NothingToDivide(g, r, x);
    } else {
      var r' := Step(g, r, x[0]);
      DivisionIdentity(g, r', x[1..]);
      DivisionStep(g, r, x, r', Quotient(g, r', x[1..]), Leftover(g, r', x[1..]));
    }
  }

  /** With as many zeros appended as the generator has coefficients, what is left over is the
      register. */
  lemma {:induction false} LeftoverIsRegister(g: Bits, r: Bits, x: Bits)
    requires |r| == |g| > 0
    ensures Leftover(g, r, x + Zeros(|g|)) == Rem(g, r, x)
    decreases |x|
  {
    if |x| == 0 {
      assert x + Zeros(|g|) == Zeros(|g|);
      XorZeros(r);
    } else {
      assert (x + Zeros(|g|))[1..] == x[1..] + Zeros(|g|);
      LeftoverIsRegister(g, Step(g, r, x[0]), x[1..]);
    }
  }

  /** The register is the remainder of polynomial division: the message followed by zeros, with
      the initial register added to its leading bits, is a multiple of the generator plus it. */
  lemma RegisterIsRemainder(g: Bits, r: Bits, x: Bits)
    requires |r| == |g| > 0
    ensures var y := x + Zeros(|g|);
            Xor(y, r + Zeros(|x|)) == Xor(Mul(Quotient(g, r, y), g), Zeros(|x|) + Rem(g, r, x))
  {
    LeftoverIsRegister(g, r, x);
    DivisionIdentity(g, r, x + Zeros(|g|));
  }

  lemma AppendNothing(x: Bits)
    ensures x + Zeros(0) == x
  {
  }

  lemma StepIntoZero(g: Bits)
    requires |g| > 0
    ensures Step(g, Zeros(|g|), true) == g
  {
  }

  lemma OwnBitsLeaveNothing(g: Bits)
    requires Generator(g)
    ensures Rem(g, g, g) == Zeros(|g|)
  {
    AppendNothing(g);
    ZeroRemainder(g, g, g);
  }

  lemma GeneratorLeavesNothing(g: Bits)
    requires Generator(g)
    ensures Rem(g, Zeros(|g|), [true] + g) == Zeros(|g|)
  {
    var x := [true] + g;
    assert x[0] && x[1..] == g;
    StepIntoZero(g);
    OwnBitsLeaveNothing(g);
  }

  lemma LeadingTermLeavesNothing(g: Bits, k: bool, j: nat)
    requires Generator(g)
    ensures Rem(g, Zeros(|g|), Scale(k, [true] + g) + Zeros(j)) == Zeros(|g|)
  {
    var z, lead := Zeros(|g|), Scale(k, [true] + g);
    RemConcat(g, z, lead, Zeros(j));
    if k {
      GeneratorLeavesNothing(g);
    } else {
      RemOfZeros(g, |g| + 1);
    }
    RemOfZeros(g, j);
  }

  /** Every multiple of the generator leaves remainder zero. */
  lemma {:induction false} MultipleLeavesNothing(g: Bits, q: Bits)
    requires Generator(g)
    ensures Rem(g, Zeros(|g|), Mul(q, g)) == Zeros(|g|)
    decreases |q|
  {
    var z := Zeros(|g|);
    if |q| == 0 {
      RemOfZeros(g, |g|);
    } else {
      var lead := Scale(q[0], [true] + g) + Zeros(|q| - 1);
      LeadingTermLeavesNothing(g, q[0], |q| - 1);
      MultipleLeavesNothing(g, q[1..]);
      LeadingZeroLeavesRemainder(g, Mul(q[1..], g));
      RemOfSum(g, lead, [false] + Mul(q[1..], g));
      XorZeros(z);
    }
  }

  lemma LeadingZeroLeavesRemainder(g: Bits, x: Bits)
    requires |g| > 0
    ensures Rem(g, Zeros(|g|), [false] + x) == Rem(g, Zeros(|g|), x)
  {
    assert ([false] + x)[1..] == x;
    StepOfZeros(g);
  }

  lemma StartFromZero(g: Bits, r: Bits, x: Bits)
    requires |r| == |g| > 0 && |x| >= |g|
    ensures Rem(g, r, x) == Rem(g, Zeros(|g|), Xor(x, r + Zeros(|x| - |g|)))
  {
    var n, z := |g|, Zeros(|g|);
    var y := Xor(x[..n], r);
    SplitDividend(r, x, y);
    RemConcat(g, r, x[..n], x[n..]);
    RemConcat(g, z, y, x[n..]);
    WholeRegister(g, r, x[..n], y);
  }

  lemma SplitDividend(r: Bits, x: Bits, y: Bits)
    requires |x| >= |r| && y == Xor(x[..|r|], r)
    ensures x == x[..|r|] + x[|r|..] && Xor(x, r + Zeros(|x| - |r|)) == y + x[|r|..]
  {
  }

  /** As many bits as the register holds are simply added to it. */
  lemma WholeRegister(g: Bits, r: Bits, x: Bits, y: Bits)
    requires |r| == |g| == |x| > 0 && y == Xor(x, r)
    ensures Rem(g, r, x) == Rem(g, Zeros(|g|), y)
  {
    Absorb(g, r, x);
    Absorb(g, Zeros(|g|), y);
    assert x + Zeros(0) == x && y + Zeros(0) == y;
    assert Xor(r, x) == y;
    XorZeros(y);
  }

  /** `x`, with the initial register `r` added to its leading bits, is a polynomial
      multiple of the generator. */
  ghost predicate MultipleOf(g: Bits, r: Bits, x: Bits)
    requires |r| == |g| && |x| >= |g|
  {
    exists q :: |q| == |x| - |g| && Xor(x, r + Zeros(|x| - |g|)) == Mul(q, g)
  }

  /** The register ends at zero exactly when the dividend is a multiple of the generator. */
  lemma DivisibleIffMultiple(g: Bits, r: Bits, x: Bits)
    requires Generator(g) && |r| == |g| && |x| >= |g|
    ensures Rem(g, r, x) == Zeros(|g|) <==> MultipleOf(g, r, x)
  {
    var m := |x| - |g|;
    var y := Xor(x, r + Zeros(m));
    if Rem(g, r, x) == Zeros(|g|) {
      NoRemainderGivesMultiple(g, r, x);
      assert y == Mul(Quotient(g, r, x), g);
    }
    if q :| |q| == m && y == Mul(q, g) {
      MultipleLeavesNothing(g, q);
      StartFromZero(g, r, x);
    }
  }

  lemma NoRemainderGivesMultiple(g: Bits, r: Bits, x: Bits)
    requires Generator(g) && |r| == |g| && |x| >= |g|
    requires Rem(g, r, x) == Zeros(|g|)
    ensures Xor(x, r + Zeros(|x| - |g|)) == Mul(Quotient(g, r, x), g)
  {
    LeftoverZero(g, r, x);
    DivisionIdentity(g, r, x);
    ZerosConcat(|x| - |g|, |g|);
    XorZeros(Mul(Quotient(g, r, x), g));
  }

  lemma ZerosConcat(m: nat, n: nat)
    ensures Zeros(m) + Zeros(n) == Zeros(m + n)
  {
  }

  lemma SplitAbsorbed(r: Bits, x: Bits, y: Bits)
    requires |x| <= |r| && y == Xor(r[..|x|], x)
    ensures var k, n := |x|, |r|;
            Xor(r, x + Zeros(n - k)) == Xor(Zeros(k) + r[k..], y + Zeros(n - k))
  {
  }

  lemma RemOfParts(g: Bits, hi: Bits, lo: Bits, k: nat)
    requires |hi| == |lo| == |g| > 0
    ensures Rem(g, Xor(hi, lo), Zeros(k)) == Xor(Rem(g, hi, Zeros(k)), Rem(g, lo, Zeros(k)))
  {
    XorZeros(Zeros(k));
    RemLinear(g, hi, lo, Zeros(k), Zeros(k));
  }

  lemma HighPart(g: Bits, r: Bits, k: nat)
    requires k <= |r| == |g| && |g| > 0
    ensures Rem(g, Zeros(k) + r[k..], Zeros(k)) == r[k..] + Zeros(k)
  {
    var hi := Zeros(k) + r[k..];
    assert hi[..k] == Zeros(k) && hi[k..] == r[k..];
    ShiftOut(g, hi, k);
  }

  lemma LowPart(g: Bits, y: Bits)
    requires |y| <= |g| && |g| > 0
    ensures Rem(g, y + Zeros(|g| - |y|), Zeros(|y|)) == Rem(g, Zeros(|g|), y)
  {
    Absorb(g, Zeros(|g|), y);
    XorZeros(y + Zeros(|g| - |y|));
  }

  /** Bringing down `x` at once: the leading coefficients meet `x`, the others move up. */
  lemma RemByLeadingPart(g: Bits, r: Bits, x: Bits, y: Bits, hi: Bits, t: Bits)
    requires |x| <= |r| == |g| && |g| > 0 && y == Xor(r[..|x|], x)
    requires hi == r[|x|..] + Zeros(|x|) && t == Rem(g, Zeros(|g|), y)
    ensures Rem(g, r, x) == Xor(hi, t)
  {
    var n, k := |g|, |x|;
    calc {
      Rem(g, r, x);
    ==  { Absorb(g, r, x); }
      Rem(g, Xor(r, x + Zeros(n - k)), Zeros(k));
    ==  { SplitAbsorbed(r, x, y); }
      Rem(g, Xor(Zeros(k) + r[k..], y + Zeros(n - k)), Zeros(k));
    ==  { RemOfParts(g, Zeros(k) + r[k..], y + Zeros(n - k), k); }
      Xor(Rem(g, Zeros(k) + r[k..], Zeros(k)), Rem(g, y + Zeros(n - k), Zeros(k)));
    ==  { HighPart(g, r, k); LowPart(g, y); }
      Xor(r[k..] + Zeros(k), Rem(g, Zeros(n), y));
    }
  }
}
