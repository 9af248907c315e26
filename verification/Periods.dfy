/** When two set bits cancel each other in a division: exactly when the register that the first
    one leaves has come round to itself. */
module Periods {
  import opened Gf2

  /** After `k` zero bits the register is back at what a single set bit leaves. */
  predicate Returns(g: Bits, k: nat)
    requires |g| > 0
  {
    Rem(g, g, Zeros(k)) == g
  }

  lemma RemZerosAdd(g: Bits, r: Bits, j: nat, k: nat)
    requires |r| == |g| > 0
    ensures Rem(g, r, Zeros(j + k)) == Rem(g, Rem(g, r, Zeros(j)), Zeros(k))
  {
    ZerosConcat(j, k);
    RemConcat(g, r, Zeros(j), Zeros(k));
  }

  lemma ReturnsAdd(g: Bits, j: nat, k: nat)
    requires |g| > 0 && Returns(g, j)
    ensures Returns(g, j + k) <==> Returns(g, k)
  {
    RemZerosAdd(g, g, j, k);
  }

  lemma ReturnsAtOnce(g: Bits)
    requires |g| > 0
    ensures Returns(g, 0)
  {
  }

  /** `m` is the least number of zero bits after which the register is back. */
  predicate LeastReturn(g: Bits, m: nat)
    requires |g| > 0
  {
    m > 0 && Returns(g, m) && forall k | 0 < k < m :: !Returns(g, k)
  }

  lemma {:induction false} ReturnsAreMultiples(g: Bits, m: nat, k: nat)
    requires |g| > 0 && LeastReturn(g, m)
    ensures Returns(g, k) <==> k % m == 0
    decreases k
  {
    hide Returns;
    if k >= m {
      ReturnsAdd(g, m, k - m);
      ReturnsAreMultiples(g, m, k - m);
      OneLess(k, m);
    } else {
      ReturnsAtOnce(g);
    }
  }

  lemma OneLess(k: nat, m: nat)
    requires 0 < m <= k
    ensures (k - m) % m == k % m
  {
    var q := (k - m) / m;
    assert k - m == q * m + (k - m) % m;
    assert k == (q + 1) * m + (k - m) % m;
    SameRemainder(k, q + 1, m, (k - m) % m);
  }

  lemma ProductsGrow(p: nat, q: nat, m: nat)
    requires p <= q
    ensures p * m <= q * m
  {
  }

  lemma NextMultiple(p: nat, m: nat)
    ensures (p + 1) * m == p * m + m
  {
  }

  lemma UniqueRemainder(p: nat, q: nat, m: nat, r: nat, s: nat)
    requires p * m + s == q * m + r && r < m && s < m
    ensures r == s
  {
    NextMultiple(p, m);
    NextMultiple(q, m);
    if p < q {
      ProductsGrow(p + 1, q, m);
    } else if p > q {
      ProductsGrow(q + 1, p, m);
    }
  }

  lemma SameRemainder(k: nat, q: nat, m: nat, r: nat)
    requires k == q * m + r && r < m
    ensures k % m == r
  {
    UniqueRemainder(k / m, q, m, r, k % m);
  }

  lemma FindLeastReturn(g: Bits, n: nat) returns (m: nat)
    requires |g| > 0 && n > 0 && Returns(g, n)
    ensures LeastReturn(g, m) && m <= n
  {
    hide Returns;
    m := 1;
    while !Returns(g, m)
      invariant 0 < m <= n && forall k | 0 < k < m :: !Returns(g, k)
      decreases n - m
    {
      m := m + 1;
    }
  }

  /** If the register is back after `n` steps and after none of `qs`, and every proper divisor of
      `n` divides one of `qs`, then it is back exactly after the multiples of `n`. */
  lemma ReturnsExactly(g: Bits, n: nat, qs: seq<nat>, k: nat)
    requires |g| > 0 && n > 0 && Returns(g, n)
    requires forall i | 0 <= i < |qs| :: !Returns(g, qs[i])
    requires forall m: nat | 0 < m < n && n % m == 0 :: exists i :: 0 <= i < |qs| && qs[i] % m == 0
    ensures Returns(g, k) <==> k % n == 0
  {
    hide Returns;
    var m := FindLeastReturn(g, n);
    ReturnsAreMultiples(g, m, n);
    if m < n {
      var i :| 0 <= i < |qs| && qs[i] % m == 0;
      ReturnsAreMultiples(g, m, qs[i]);
    } else {
      ReturnsAreMultiples(g, m, k);
    }
  }

  // ------------------------------------------------------------------- two set bits

  /** A one instead of a zero adds the generator. */
  lemma StepWithOne(g: Bits, r: Bits)
    requires |r| == |g| > 0
    ensures Step(g, r, true) == Xor(Step(g, r, false), g)
  {
    StepLinear(g, r, Zeros(|g|), false, true);
    XorZeros(r);
    StepIntoZero(g);
  }

  lemma XorIsZero(x: Bits, y: Bits)
    requires |x| == |y|
    ensures Xor(x, y) == Zeros(|x|) <==> x == y
  {
    if Xor(x, y) == Zeros(|x|) {
      forall i | 0 <= i < |x| ensures x[i] == y[i] {
        assert Xor(x, y)[i] == Zeros(|x|)[i];
      }
    }
  }

  /** Two set bits, `k + 1` places apart, are divisible exactly if the register returns after
      `k + 1` zeros. */
  lemma TwoBitsDivisibleIff(g: Bits, i: nat, k: nat, j: nat)
    requires Generator(g)
    ensures Rem(g, Zeros(|g|), Zeros(i) + [true] + Zeros(k) + [true] + Zeros(j)) == Zeros(|g|)
       <==> Returns(g, k + 1)
  {
    hide Rem, Step;
    var z, r := Zeros(|g|), Rem(g, g, Zeros(k));
    var x, y := Zeros(i) + [true] + Zeros(k), Zeros(i) + [true] + Zeros(k) + [true];
    SingleBitRemainder(g, i, k);
    RemConcat(g, z, x, [true]);
    BringDownBit(g, r);
    RemConcat(g, z, y, Zeros(j));
    ZerosKeepNonzero(g, Rem(g, z, y), j);
    StepWithOne(g, r);
    XorIsZero(Step(g, r, false), g);
    OneMoreZero(g, k);
  }

  // ------------------------------------------------------------------- divisors

  lemma Multiple(q: nat, m: nat)
    requires m > 0
    ensures (q * m) % m == 0
  {
    SameRemainder(q * m, q, m, 0);
  }

  /** Of two factors one is no larger than the root. */
  lemma SmallFactor(m: nat, c: nat, root: nat)
    requires m > root && c > root
    ensures m * c >= (root + 1) * (root + 1)
  {
    assert m * c >= (root + 1) * c >= (root + 1) * (root + 1);
  }

  lemma SmallDivisorsOf32767(k: nat)
    requires 0 < k <= 181 && 32767 % k == 0
    ensures k in {1, 7, 31, 151}
  {
    if k <= 30 {
      DivisorsTo30(k);
    } else if k <= 150 {
      DivisorsTo150(k);
    } else {
      DivisorsTo181(k);
    }
  }

  lemma DivisorsTo30(k: nat)
    requires 0 < k <= 30 && 32767 % k == 0
    ensures k == 1 || k == 7
  {
  }

  lemma DivisorsTo150(k: nat)
    requires 31 <= k <= 150 && 32767 % k == 0
    ensures k == 31
  {
  }

  lemma DivisorsTo181(k: nat)
    requires 151 <= k <= 181 && 32767 % k == 0
    ensures k == 151
  {
  }

  /** 32767 is 7 times 31 times 151. */
  lemma ProperDivisorOf32767(m: nat)
    requires 0 < m < 32767 && 32767 % m == 0
    ensures 4681 % m == 0 || 1057 % m == 0 || 217 % m == 0
  {
    var c := 32767 / m;
    assert m * c == 32767;
    if m <= 181 {
      SmallDivisorsOf32767(m);
    } else {
      if c > 181 {
        SmallFactor(m, c, 181);
      }
      Multiple(m, c);
      SmallDivisorsOf32767(c);
    }
  }

  /** 127 is a prime number. */
  lemma ProperDivisorOf127(m: nat)
    requires 0 < m < 127 && 127 % m == 0
    ensures 1 % m == 0
  {
  }
}
