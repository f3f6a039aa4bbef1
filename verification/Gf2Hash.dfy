/** hashnum of names.c: the hash function of the five usb.ids tables.
    Its in-place loop is long division over GF(2); the value is the remainder
    of the input, read as a polynomial, modulo x^4 + x. */
module Gf2Hash {
  import opened Words

  /** A polynomial over GF(2): p[k] is the coefficient of x^k. */
  type Poly = seq<bool>

  function Coef(p: Poly, k: int): bool {
    0 <= k < |p| && p[k]
  }

  /** The coefficient of x^k in the product a * b. */
  function Product(a: Poly, b: Poly, k: int): bool {
    if a == [] then false else (a[0] && Coef(b, k)) != Product(a[1..], b, k - 1)
  }

  function Sum(a: Poly, b: Poly): Poly
    requires |a| == |b|
  {
    seq(|a|, k requires 0 <= k < |a| => a[k] != b[k])
  }

  /** x^4 + x */
  const MODULUS: Poly := [false, true, false, false, true]

  /** p == q * (x^4 + x) + r with the degree of r below 4. */
  ghost predicate IsDivision(p: Poly, q: Poly, r: Poly) {
    && |r| == 4
    && forall k: int :: Coef(p, k) == (Product(MODULUS, q, k) != Coef(r, k))
  }

  lemma ProductWithModulus(q: Poly, k: int)
    ensures Product(MODULUS, q, k) == (Coef(q, k - 1) != Coef(q, k - 4))
  {
    var m1 := MODULUS[1..];
    var m2 := m1[1..];
    var m3 := m2[1..];
    assert m3[1..] == [true];
    assert Product(m3[1..], q, k - 4) == Coef(q, k - 4);
    assert Product(m3, q, k - 3) == Coef(q, k - 4);
    assert Product(m2, q, k - 2) == Coef(q, k - 4);
  }

  /** Division by x^4 + x has at most one remainder. */
  lemma RemainderUnique(p: Poly, q: Poly, r: Poly, q': Poly, r': Poly)
    requires IsDivision(p, q, r) && IsDivision(p, q', r')
    ensures r == r'
  {
    forall k: int
      ensures Product(MODULUS, q, k) == Product(MODULUS, q', k)
    {
      ProductWithModulus(q, k);
      ProductWithModulus(q', k);
      forall j | 0 <= j ensures Coef(q, j) == Coef(q', j) {
        QuotientsAgree(p, q, r, q', r', j);
      }
    }
    forall k | 0 <= k < 4 ensures r[k] == r'[k] {
      assert Coef(p, k) == (Product(MODULUS, q, k) != Coef(r, k));
      assert Coef(p, k) == (Product(MODULUS, q', k) != Coef(r', k));
    }
  }

  /** Past both lengths the coefficients are 0; each one determines the one three below. */
  lemma {:induction false} QuotientsAgree(p: Poly, q: Poly, r: Poly, q': Poly, r': Poly, j: nat)
    requires IsDivision(p, q, r) && IsDivision(p, q', r')
    ensures Coef(q, j) == Coef(q', j)
    decreases |q| + |q'| - j
  {
    if j < |q| + |q'| {
      QuotientsAgree(p, q, r, q', r', j + 3);
      ProductWithModulus(q, j + 4);
      ProductWithModulus(q', j + 4);
      assert Coef(p, j + 4) == (Product(MODULUS, q, j + 4) != Coef(r, j + 4));
      assert Coef(p, j + 4) == (Product(MODULUS, q', j + 4) != Coef(r', j + 4));
    }
  }

  /** The loop of hashnum on a string of any length: bits k-1 down to 4,
      each set bit b flipping bit b-3. */
  function Reduce(p: Poly, k: nat): (r: Poly)
    requires k <= |p|
    ensures |r| == |p|
    decreases k
  {
    if k <= 4 then p
    else Reduce(if p[k - 1] then p[k - 4 := !p[k - 4]] else p, k - 1)
  }

  lemma {:induction false} ReducedBit(p: Poly, k: nat, i: nat)
    requires k <= |p| && i < |p|
    ensures Reduce(p, k)[i] == (p[i] != (1 <= i && i + 3 < k && Reduce(p, k)[i + 3]))
    decreases k
  {
    if k > 4 {
      var p1 := if p[k - 1] then p[k - 4 := !p[k - 4]] else p;
      ReducedBit(p1, k - 1, i);
      if i == k - 4 {
        ReducedBit(p1, k - 1, k - 1);
      }
    }
  }

  /** Loop lemma: what the loop leaves is quotient (bits 4 and up) and remainder (bits 0 to 3). */
  lemma ReduceDivides(p: Poly)
    requires 4 <= |p|
    ensures IsDivision(p, Reduce(p, |p|)[4..], Reduce(p, |p|)[..4])
  {
    var d := Reduce(p, |p|);
    forall k: int
      ensures Coef(p, k) == (Product(MODULUS, d[4..], k) != Coef(d[..4], k))
    {
      ProductWithModulus(d[4..], k);
      if 0 <= k < |p| {
        ReducedBit(p, |p|, k);
      }
    }
  }

  /** Divisions add up coefficient by coefficient. */
  lemma SumDivides(a: Poly, qa: Poly, ra: Poly, b: Poly, qb: Poly, rb: Poly)
    requires |a| == |b| && |qa| == |qb|
    requires IsDivision(a, qa, ra) && IsDivision(b, qb, rb)
    ensures IsDivision(Sum(a, b), Sum(qa, qb), Sum(ra, rb))
  {
    forall k: int
      ensures Coef(Sum(a, b), k) == (Product(MODULUS, Sum(qa, qb), k) != Coef(Sum(ra, rb), k))
    {
      assert Coef(a, k) == (Product(MODULUS, qa, k) != Coef(ra, k));
      assert Coef(b, k) == (Product(MODULUS, qb, k) != Coef(rb, k));
      ProductWithModulus(qa, k);
      ProductWithModulus(qb, k);
      ProductWithModulus(Sum(qa, qb), k);
    }
  }

  lemma RemainderLinear(a: Poly, b: Poly)
    requires 4 <= |a| == |b|
    ensures Reduce(Sum(a, b), |a|)[..4] == Sum(Reduce(a, |a|)[..4], Reduce(b, |b|)[..4])
  {
    var da, db, ds := Reduce(a, |a|), Reduce(b, |b|), Reduce(Sum(a, b), |a|);
    ReduceDivides(a);
    ReduceDivides(b);
    ReduceDivides(Sum(a, b));
    SumDivides(a, da[4..], da[..4], b, db[4..], db[..4]);
    RemainderUnique(Sum(a, b), ds[4..], ds[..4], Sum(da[4..], db[4..]), Sum(da[..4], db[..4]));
  }

  // ----- The 32-bit instance -----

  /** Bit k of the binary expansion of n. */
  predicate Bit(n: nat, k: nat) {
    if k == 0 then n % 2 == 1 else Bit(n / 2, k - 1)
  }

  /** C's & and ^ on unsigned words. */
  function And(a: nat, b: nat): nat {
    if a == 0 then 0 else 2 * And(a / 2, b / 2) + (a % 2) * (b % 2)
  }

  function Xor(a: nat, b: nat): nat
    decreases a + b
  {
    if a == 0 && b == 0 then 0
    else 2 * Xor(a / 2, b / 2) + if a % 2 == b % 2 then 0 else 1
  }

  lemma {:induction false} XorBit(a: nat, b: nat, k: nat)
    ensures Bit(Xor(a, b), k) == (Bit(a, k) != Bit(b, k))
    decreases k
  {
    if k > 0 {
      XorBit(a / 2, b / 2, k - 1);
    }
  }

  lemma {:induction false} ZeroBit(k: nat)
    ensures !Bit(0, k)
  {
    if k > 0 {
      ZeroBit(k - 1);
    }
  }

  lemma {:induction false} XorFits(a: nat, b: nat, bound: nat, k: nat)
    requires bound == Pow2(k) && a < bound && b < bound
    ensures Xor(a, b) < bound
    decreases k
  {
    if k > 0 {
      XorFits(a / 2, b / 2, bound / 2, k - 1);
    }
  }

  function Pow2(k: nat): (p: nat)
    ensures p > 0
  {
    if k == 0 then 1 else 2 * Pow2(k - 1)
  }

  lemma {:induction false} MaskBit(j: nat, k: nat)
    ensures Bit(Pow2(j), k) <==> j == k
  {
    if j > 0 && k > 0 {
      MaskBit(j - 1, k - 1);
    } else if k > 0 {
      ZeroBit(k - 1);
    }
  }

  /** The test num & mask of hashnum. */
  lemma {:induction false} MaskTests(n: nat, j: nat)
    ensures And(n, Pow2(j)) != 0 <==> Bit(n, j)
  {
    if n == 0 {
      ZeroBit(j);
    } else if j > 0 {
      MaskTests(n / 2, j - 1);
    } else {
      AndZero(n / 2);
    }
  }

  lemma {:induction false} AndZero(n: nat)
    ensures And(n, 0) == 0
  {
    if n != 0 {
      AndZero(n / 2);
    }
  }

  lemma {:induction false} Pow2Grows(j: nat, k: nat)
    requires j <= k
    ensures Pow2(j) <= Pow2(k)
  {
    if j < k {
      Pow2Grows(j, k - 1);
    }
  }

  function Bits(n: u32): (p: Poly)
    ensures |p| == 32
  {
    seq(32, k requires 0 <= k < 32 => Bit(n, k))
  }

  /** The number whose binary digits are r, lowest first. */
  function Index(r: Poly): (h: nat)
    ensures h < Pow2(|r|)
  {
    if r == [] then 0 else 2 * Index(r[1..]) + if r[0] then 1 else 0
  }

  /** h is the number of a remainder of n, read as a polynomial, modulo x^4 + x. */
  ghost predicate IsRemainder(n: u32, h: nat) {
    exists q, r :: IsDivision(Bits(n), q, r) && h == Index(r)
  }

  /** Specification of hashnum: the remainder of n modulo x^4 + x, as a number. */
  ghost function Hash(n: u32): (h: nat)
    ensures h < 16
  {
    RemainderExists(n);
    Powers();
    var h: nat :| h < 16 && IsRemainder(n, h);
    h
  }

  lemma RemainderExists(n: u32)
    ensures exists h: nat :: h < 16 && IsRemainder(n, h)
  {
    var d := Reduce(Bits(n), 32);
    ReduceDivides(Bits(n));
    Powers();
    assert IsRemainder(n, Index(d[..4]));
  }

  /** The remainder is unique: any division of n yields Hash(n). */
  lemma HashIsRemainder(n: u32, q: Poly, r: Poly)
    requires IsDivision(Bits(n), q, r)
    ensures Hash(n) == Index(r)
  {
    var q', r' :| IsDivision(Bits(n), q', r') && Hash(n) == Index(r');
    RemainderUnique(Bits(n), q, r, q', r');
  }

  lemma HashIsReduced(n: u32)
    ensures Hash(n) == Index(Reduce(Bits(n), 32)[..4])
  {
    ReduceDivides(Bits(n));
    HashIsRemainder(n, Reduce(Bits(n), 32)[4..], Reduce(Bits(n), 32)[..4]);
  }

  lemma HashLinear(a: u32, b: u32)
    ensures 0 <= Xor(a, b) < 0x1_0000_0000
    ensures Hash(Xor(a, b)) == Xor(Hash(a), Hash(b))
  {
    Powers();
    XorFits(a, b, 0x1_0000_0000, 32);
    var s: u32 := Xor(a, b);
    forall k | 0 <= k < 32 ensures Bit(s, k) == (Bit(a, k) != Bit(b, k)) {
      XorBit(a, b, k);
    }
    assert Bits(s) == Sum(Bits(a), Bits(b));
    HashIsReduced(a);
    HashIsReduced(b);
    HashIsReduced(s);
    RemainderLinear(Bits(a), Bits(b));
    IndexLinear(Reduce(Bits(a), 32)[..4], Reduce(Bits(b), 32)[..4]);
  }

  lemma {:induction false} IndexLinear(a: Poly, b: Poly)
    requires |a| == |b|
    ensures Index(Sum(a, b)) == Xor(Index(a), Index(b))
  {
    if a != [] {
      IndexLinear(a[1..], b[1..]);
      assert Sum(a, b)[1..] == Sum(a[1..], b[1..]);
      LowDigit(a);
      LowDigit(b);
    }
  }

  lemma LowDigit(a: Poly)
    requires a != []
    ensures Index(a) / 2 == Index(a[1..])
    ensures Index(a) % 2 == if a[0] then 1 else 0
  {
  }

  /** The mask of HASHSZ - 1 keeps the four lowest bits. */
  lemma LowNibble(n: u32)
    ensures And(n, 0xF) == Index(Bits(n)[..4])
  {
    LowBits(n, 4, Bits(n)[..4]);
    Powers();
  }

  lemma {:induction false} LowBits(n: nat, k: nat, r: Poly)
    requires |r| == k && forall i | 0 <= i < k :: r[i] == Bit(n, i)
    ensures And(n, Pow2(k) - 1) == Index(r)
    decreases k
  {
    if k == 0 {
      AndZero(n);
    } else {
      forall i | 0 <= i < k - 1 ensures r[1..][i] == Bit(n / 2, i) {
        assert r[i + 1] == Bit(n, i + 1);
      }
      LowBits(n / 2, k - 1, r[1..]);
      assert (Pow2(k) - 1) / 2 == Pow2(k - 1) - 1;
      if n == 0 {
        assert Index(r[1..]) == 0;
      }
    }
  }

  lemma Powers()
    ensures Pow2(3) == 8 && Pow2(4) == 16
    ensures Pow2(28) == 0x1000_0000 && Pow2(31) == 0x8000_0000 && Pow2(32) == 0x1_0000_0000
  {
    assert Pow2(1) == 2 && Pow2(2) == 4 && Pow2(3) == 8;
    Pow2By4(0);
    Pow2By4(4);
    Pow2By4(8);
    Pow2By4(12);
    Pow2By4(16);
    Pow2By4(20);
    Pow2By4(24);
    Pow2By4(28);
    assert Pow2(32) == 2 * Pow2(31);
  }

  lemma Pow2By4(k: nat)
    ensures Pow2(k + 4) == 16 * Pow2(k)
  {
    assert Pow2(k + 2) == 4 * Pow2(k);
    assert Pow2(k + 3) == 8 * Pow2(k);
  }

  /** One turn of the loop is one step of the division. */
  lemma LoopStep(num: u32, k: nat)
    requires 4 <= k < 32
    ensures And(num, Pow2(k)) == 0 ==> Reduce(Bits(num), k) == Reduce(Bits(num), k + 1)
    ensures And(num, Pow2(k)) != 0 ==>
              && Xor(num, Pow2(k - 3)) < 0x1_0000_0000
              && Reduce(Bits(Xor(num, Pow2(k - 3))), k) == Reduce(Bits(num), k + 1)
  {
    MaskTests(num, k);
    Powers();
    Pow2Grows(k - 3, 28);
    XorFits(num, Pow2(k - 3), 0x1_0000_0000, 32);
    var flipped := Xor(num, Pow2(k - 3));
    forall i | 0 <= i < 32 ensures Bit(flipped, i) == (Bit(num, i) != (i == k - 3)) {
      XorBit(num, Pow2(k - 3), i);
      MaskBit(k - 3, i);
    }
    assert Bits(flipped) == Bits(num)[k - 3 := !Bits(num)[k - 3]];
  }

  method HashNum(n: u32) returns (h: nat)
    ensures h == Hash(n)
  {
    var num: u32 := n;
    var mask1, mask2 := 0x10 * 0x800_0000, 0x02 * 0x800_0000;
    ghost var k := 31;
    Powers();
    while mask1 >= 0x10
      invariant 3 <= k < 32 && mask1 == Pow2(k) && mask2 == Pow2(k - 3)
      invariant Reduce(Bits(num), k + 1) == Reduce(Bits(n), 32)
      decreases k
    {
      LoopStep(num, k);
      if And(num, mask1) != 0 {
        num := Xor(num, mask2);
      }
      mask1, mask2 := mask1 / 2, mask2 / 2;
      k := k - 1;
    }
    if k >= 4 {
      Pow2Grows(4, k);
    }
    LowNibble(num);
    HashIsReduced(n);
    h := And(num, 0xF);
  }
}
