/** What the round constants and the initial value are: the first 32 bits of the fractional parts of the
    cube roots of the first 64 primes, and of the square roots of the first eight (sections 4.2.2 and
    5.3.3 of FIPS 180-4). */
module ShaConstants {
  import opened MachineInts
  import opened ShaSpec
  import opened ShaScalar

  // ------------------------------------------------------------------
  // The first 64 primes
  // ------------------------------------------------------------------

  ghost predicate IsPrime(p: nat) {
    2 <= p && forall d :: 2 <= d < p ==> p % d != 0
  }

  /** `q` is the next prime after `p`. */
  ghost predicate NextPrime(p: nat, q: nat) {
    p < q && IsPrime(q) && forall n :: p < n < q ==> !IsPrime(n)
  }

  /** Trial division by the primes up to 17. */
  predicate Passes(n: nat) {
    && (n == 2 || n % 2 != 0) && (n == 3 || n % 3 != 0) && (n == 5 || n % 5 != 0) && (n == 7 || n % 7 != 0)
    && (n == 11 || n % 11 != 0) && (n == 13 || n % 13 != 0) && (n == 17 || n % 17 != 0)
  }

  /** A number that a smaller one divides is divided by a prime up to 17, if it is below 18 squared. */
  lemma TrialIsEnough(n: nat)
    requires 2 <= n < 18 * 18 && Passes(n)
    ensures IsPrime(n)
  {
    hide Passes;
    forall d | 2 <= d < n ensures n % d != 0 {
      NoDivisor(n, d);
    }
  }

  lemma NoDivisor(n: nat, d: nat)
    requires 2 <= d < n < 18 * 18 && Passes(n)
    ensures n % d != 0
  {
    hide Passes;
    var e := n / d;
    Divided(n, d);
    if n % d == 0 {
      Cofactor(n, d, e);
      if d < 18 {
        NoSmallDivisor(n, d, e);
      } else {
        TooLarge(d, e);
        Commutes(d, e);
        NoSmallDivisor(n, e, d);
      }
    }
  }

  lemma Divided(n: nat, d: nat)
    requires 0 < d
    ensures n == d * (n / d) + n % d
  {
  }

  lemma Commutes(d: nat, e: nat)
    ensures d * e == e * d
  {
  }

  lemma Cofactor(n: nat, d: nat, e: nat)
    requires n == d * e && d < n
    ensures 2 <= e
  {
    assert e == 1 ==> d * e == d;
    assert e == 0 ==> d * e == 0;
  }

  lemma TooLarge(d: nat, e: nat)
    requires 18 <= d && d * e < 18 * 18
    ensures e < 18
  {
    assert 18 <= e ==> 18 * 18 <= d * 18 <= d * e;
  }

  lemma MultipleMod(n: nat, r: nat, x: nat)
    requires 0 < r && n == r * x
    ensures n % r == 0
    ensures n == r ==> x == 1
  {
    QuotientOf(n, r, x, 0);
    if n == r {
      QuotientOf(n, r, 1, 0);
    }
  }

  /** A prime up to 17 that divides a number below 18. */
  lemma SmallFactor(d: nat) returns (r: nat, f: nat)
    requires 2 <= d < 18
    ensures r in {2, 3, 5, 7, 11, 13, 17} && d == r * f
  {
    r := if d % 2 == 0 then 2 else if d % 3 == 0 then 3 else d;
    f := if d % 2 == 0 then d / 2 else if d % 3 == 0 then d / 3 else 1;
  }

  lemma NoSmallDivisor(n: nat, d: nat, e: nat)
    requires n == d * e && 2 <= n && Passes(n) && 2 <= d < 18
    ensures e < 2
  {
    var r, f := SmallFactor(d);
    ThreeFactors(n, r, f, e);
    MultipleMod(n, r, f * e);
    PassesOnly(n, r);
    OneOnly(f, e);
  }

  lemma ThreeFactors(n: nat, r: nat, f: nat, e: nat)
    requires n == (r * f) * e
    ensures n == r * (f * e)
  {
  }

  lemma PassesOnly(n: nat, r: nat)
    requires Passes(n) && r in {2, 3, 5, 7, 11, 13, 17} && n % r == 0
    ensures n == r
  {
  }

  lemma OneOnly(f: nat, e: nat)
    requires f * e == 1
    ensures e == 1
  {
    assert f == 0 ==> f * e == 0;
    AtLeastOne(e, 1, f);
  }

  lemma FailsIsNoPrime(m: nat)
    requires 2 <= m && !Passes(m)
    ensures !IsPrime(m)
  {
    var d := if m != 2 && m % 2 == 0 then 2 else if m != 3 && m % 3 == 0 then 3 else if m != 5 && m % 5 == 0 then 5
             else if m != 7 && m % 7 == 0 then 7 else if m != 11 && m % 11 == 0 then 11
             else if m != 13 && m % 13 == 0 then 13 else 17;
    assert m % d == 0 && m != d;
    if m < d {
      QuotientOf(m, d, 0, m);
    }
  }

  /** The numbers between `p` and `q`, thirteen at most, do not pass. */
  predicate NonePasses(p: nat, q: nat) {
    && q <= p + 14
    && (p + 1 < q ==> !Passes(p + 1)) && (p + 2 < q ==> !Passes(p + 2)) && (p + 3 < q ==> !Passes(p + 3))
    && (p + 4 < q ==> !Passes(p + 4)) && (p + 5 < q ==> !Passes(p + 5)) && (p + 6 < q ==> !Passes(p + 6))
    && (p + 7 < q ==> !Passes(p + 7)) && (p + 8 < q ==> !Passes(p + 8)) && (p + 9 < q ==> !Passes(p + 9))
    && (p + 10 < q ==> !Passes(p + 10)) && (p + 11 < q ==> !Passes(p + 11)) && (p + 12 < q ==> !Passes(p + 12))
    && (p + 13 < q ==> !Passes(p + 13))
  }

  lemma Follows(p: nat, q: nat)
    requires 1 <= p < q < 18 * 18 && Passes(q) && NonePasses(p, q)
    ensures NextPrime(p, q)
  {
    TrialIsEnough(q);
    forall n | p < n < q ensures !IsPrime(n) {
      assert !Passes(n);
      FailsIsNoPrime(n);
    }
  }

  function Primes0(): (r: seq<nat>)
    ensures |r| == 16
  {
    [2, 3, 5, 7, 11, 13, 17, 19, 23, 29, 31, 37, 41, 43, 47, 53]
  }

  function Primes1(): (r: seq<nat>)
    ensures |r| == 16
  {
    [59, 61, 67, 71, 73, 79, 83, 89, 97, 101, 103, 107, 109, 113, 127, 131]
  }

  function Primes2(): (r: seq<nat>)
    ensures |r| == 16
  {
    [137, 139, 149, 151, 157, 163, 167, 173, 179, 181, 191, 193, 197, 199, 211, 223]
  }

  function Primes3(): (r: seq<nat>)
    ensures |r| == 16
  {
    [227, 229, 233, 239, 241, 251, 257, 263, 269, 271, 277, 281, 283, 293, 307, 311]
  }

  lemma Follow0()
    ensures NextPrime(1, 2) && NextPrime(2, 3) && NextPrime(3, 5) && NextPrime(5, 7)
    ensures NextPrime(7, 11) && NextPrime(11, 13) && NextPrime(13, 17) && NextPrime(17, 19)
  {
    hide NextPrime;
    Follows(1, 2); Follows(2, 3); Follows(3, 5); Follows(5, 7);
    Follows(7, 11); Follows(11, 13); Follows(13, 17); Follows(17, 19);
  }

  lemma Follow1()
    ensures NextPrime(19, 23) && NextPrime(23, 29) && NextPrime(29, 31) && NextPrime(31, 37)
    ensures NextPrime(37, 41) && NextPrime(41, 43) && NextPrime(43, 47) && NextPrime(47, 53)
  {
    hide NextPrime;
    Follows(19, 23); Follows(23, 29); Follows(29, 31); Follows(31, 37);
    Follows(37, 41); Follows(41, 43); Follows(43, 47); Follows(47, 53);
  }

  lemma PrimesFollow0(i: nat)
    requires i < 16
    ensures NextPrime(if i == 0 then 1 else Primes0()[i - 1], Primes0()[i])
  {
    hide NextPrime;
    Follow0();
    Follow1();
  }

  lemma Follow2()
    ensures NextPrime(53, 59) && NextPrime(59, 61) && NextPrime(61, 67) && NextPrime(67, 71)
    ensures NextPrime(71, 73) && NextPrime(73, 79) && NextPrime(79, 83) && NextPrime(83, 89)
  {
    hide NextPrime;
    Follows(53, 59); Follows(59, 61); Follows(61, 67); Follows(67, 71);
    Follows(71, 73); Follows(73, 79); Follows(79, 83); Follows(83, 89);
  }

  lemma Follow3()
    ensures NextPrime(89, 97) && NextPrime(97, 101) && NextPrime(101, 103) && NextPrime(103, 107)
    ensures NextPrime(107, 109) && NextPrime(109, 113) && NextPrime(113, 127) && NextPrime(127, 131)
  {
    hide NextPrime;
    Follows(89, 97); Follows(97, 101); Follows(101, 103); Follows(103, 107);
    Follows(107, 109); Follows(109, 113); Follows(113, 127); Follows(127, 131);
  }

  lemma PrimesFollow1(i: nat)
    requires i < 16
    ensures NextPrime(if i == 0 then 53 else Primes1()[i - 1], Primes1()[i])
  {
    hide NextPrime;
    Follow2();
    Follow3();
  }

  lemma Follow4()
    ensures NextPrime(131, 137) && NextPrime(137, 139) && NextPrime(139, 149) && NextPrime(149, 151)
    ensures NextPrime(151, 157) && NextPrime(157, 163) && NextPrime(163, 167) && NextPrime(167, 173)
  {
    hide NextPrime;
    Follows(131, 137); Follows(137, 139); Follows(139, 149); Follows(149, 151);
    Follows(151, 157); Follows(157, 163); Follows(163, 167); Follows(167, 173);
  }

  lemma Follow5()
    ensures NextPrime(173, 179) && NextPrime(179, 181) && NextPrime(181, 191) && NextPrime(191, 193)
    ensures NextPrime(193, 197) && NextPrime(197, 199) && NextPrime(199, 211) && NextPrime(211, 223)
  {
    hide NextPrime;
    Follows(173, 179); Follows(179, 181); Follows(181, 191); Follows(191, 193);
    Follows(193, 197); Follows(197, 199); Follows(199, 211); Follows(211, 223);
  }

  lemma PrimesFollow2(i: nat)
    requires i < 16
    ensures NextPrime(if i == 0 then 131 else Primes2()[i - 1], Primes2()[i])
  {
    hide NextPrime;
    Follow4();
    Follow5();
  }

  lemma Follow6()
    ensures NextPrime(223, 227) && NextPrime(227, 229) && NextPrime(229, 233) && NextPrime(233, 239)
    ensures NextPrime(239, 241) && NextPrime(241, 251) && NextPrime(251, 257) && NextPrime(257, 263)
  {
    hide NextPrime;
    Follows(223, 227); Follows(227, 229); Follows(229, 233); Follows(233, 239);
    Follows(239, 241); Follows(241, 251); Follows(251, 257); Follows(257, 263);
  }

  lemma Follow7()
    ensures NextPrime(263, 269) && NextPrime(269, 271) && NextPrime(271, 277) && NextPrime(277, 281)
    ensures NextPrime(281, 283) && NextPrime(283, 293) && NextPrime(293, 307) && NextPrime(307, 311)
  {
    hide NextPrime;
    Follows(263, 269); Follows(269, 271); Follows(271, 277); Follows(277, 281);
    Follows(281, 283); Follows(283, 293); Follows(293, 307); Follows(307, 311);
  }

  lemma PrimesFollow3(i: nat)
    requires i < 16
    ensures NextPrime(if i == 0 then 223 else Primes3()[i - 1], Primes3()[i])
  {
    hide NextPrime;
    Follow6();
    Follow7();
  }

  /** The `t`-th prime. */
  function Prime(t: nat): nat
    requires t < 64
  {
    (Primes0() + Primes1() + Primes2() + Primes3())[t]
  }

  /** The list begins with the least prime and leaves none out. */
  lemma PrimesInOrder(t: nat)
    requires t < 64
    ensures NextPrime(if t == 0 then 1 else Prime(t - 1), Prime(t))
  {
    hide NextPrime, Primes0, Primes1, Primes2, Primes3;
    PrimesFollow0(t % 16);
    PrimesFollow1(t % 16);
    PrimesFollow2(t % 16);
    PrimesFollow3(t % 16);
    PrimesMeet();
  }

  lemma PrimesMeet()
    ensures Primes0()[15] == 53 && Primes1()[15] == 131 && Primes2()[15] == 223
  {
  }

  // ------------------------------------------------------------------
  // Roots
  // ------------------------------------------------------------------

  function Square(n: nat): nat {
    n * n
  }

  function Cube(n: nat): nat {
    n * n * n
  }

  /** `k` is the first 32 bits of the fractional part of the square root of `p`, whose integer part is `c`. */
  ghost predicate SquareRootBits(p: nat, k: Word) {
    exists c: nat :: Square(c) <= p < Square(c + 1)
                     && Square(c * MODULUS + k) <= p * Square(MODULUS) < Square(c * MODULUS + k + 1)
  }

  /** The same of the cube root. */
  ghost predicate CubeRootBits(p: nat, k: Word) {
    exists c: nat :: Cube(c) <= p < Cube(c + 1)
                     && Cube(c * MODULUS + k) <= p * Cube(MODULUS) < Cube(c * MODULUS + k + 1)
  }

  lemma SquareRoot(p: nat, k: Word, c: nat)
    requires Square(c) <= p < Square(c + 1)
    requires Square(c * MODULUS + k) <= p * Square(MODULUS) < Square(c * MODULUS + k + 1)
    ensures SquareRootBits(p, k)
  {
  }

  lemma CubeRoot(p: nat, k: Word, c: nat)
    requires Cube(c) <= p < Cube(c + 1)
    requires Cube(c * MODULUS + k) <= p * Cube(MODULUS) < Cube(c * MODULUS + k + 1)
    ensures CubeRootBits(p, k)
  {
  }

  lemma RootsLow0(i: nat)
    requires 0 <= i < 8
    ensures CubeRootBits(Primes0()[i], KRow0()[i])
  {
    hide CubeRootBits;
    CubeRoot(2, 0x428a2f98, 1); CubeRoot(3, 0x71374491, 1); CubeRoot(5, 0xb5c0fbcf, 1); CubeRoot(7, 0xe9b5dba5, 1);
    CubeRoot(11, 0x3956c25b, 2); CubeRoot(13, 0x59f111f1, 2); CubeRoot(17, 0x923f82a4, 2); CubeRoot(19, 0xab1c5ed5, 2);
  }

  lemma RootsHigh0(i: nat)
    requires 8 <= i < 16
    ensures CubeRootBits(Primes0()[i], KRow0()[i])
  {
    hide CubeRootBits;
    CubeRoot(23, 0xd807aa98, 2); CubeRoot(29, 0x12835b01, 3); CubeRoot(31, 0x243185be, 3); CubeRoot(37, 0x550c7dc3, 3);
    CubeRoot(41, 0x72be5d74, 3); CubeRoot(43, 0x80deb1fe, 3); CubeRoot(47, 0x9bdc06a7, 3); CubeRoot(53, 0xc19bf174, 3);
  }

  lemma CubeRoots0(i: nat)
    requires i < 16
    ensures CubeRootBits(Primes0()[i], KRow0()[i])
  {
    hide CubeRootBits, Primes0, KRow0;
    if i < 8 {
      RootsLow0(i);
    } else {
      RootsHigh0(i);
    }
  }

  lemma RootsLow1(i: nat)
    requires 0 <= i < 8
    ensures CubeRootBits(Primes1()[i], KRow1()[i])
  {
    hide CubeRootBits;
    CubeRoot(59, 0xe49b69c1, 3); CubeRoot(61, 0xefbe4786, 3); CubeRoot(67, 0x0fc19dc6, 4); CubeRoot(71, 0x240ca1cc, 4);
    CubeRoot(73, 0x2de92c6f, 4); CubeRoot(79, 0x4a7484aa, 4); CubeRoot(83, 0x5cb0a9dc, 4); CubeRoot(89, 0x76f988da, 4);
  }

  lemma RootsHigh1(i: nat)
    requires 8 <= i < 16
    ensures CubeRootBits(Primes1()[i], KRow1()[i])
  {
    hide CubeRootBits;
    CubeRoot(97, 0x983e5152, 4); CubeRoot(101, 0xa831c66d, 4); CubeRoot(103, 0xb00327c8, 4); CubeRoot(107, 0xbf597fc7, 4);
    CubeRoot(109, 0xc6e00bf3, 4); CubeRoot(113, 0xd5a79147, 4); CubeRoot(127, 0x06ca6351, 5); CubeRoot(131, 0x14292967, 5);
  }

  lemma CubeRoots1(i: nat)
    requires i < 16
    ensures CubeRootBits(Primes1()[i], KRow1()[i])
  {
    hide CubeRootBits, Primes1, KRow1;
    if i < 8 {
      RootsLow1(i);
    } else {
      RootsHigh1(i);
    }
  }

  lemma RootsLow2(i: nat)
    requires 0 <= i < 8
    ensures CubeRootBits(Primes2()[i], KRow2()[i])
  {
    hide CubeRootBits;
    CubeRoot(137, 0x27b70a85, 5); CubeRoot(139, 0x2e1b2138, 5); CubeRoot(149, 0x4d2c6dfc, 5); CubeRoot(151, 0x53380d13, 5);
    CubeRoot(157, 0x650a7354, 5); CubeRoot(163, 0x766a0abb, 5); CubeRoot(167, 0x81c2c92e, 5); CubeRoot(173, 0x92722c85, 5);
  }

  lemma RootsHigh2(i: nat)
    requires 8 <= i < 16
    ensures CubeRootBits(Primes2()[i], KRow2()[i])
  {
    hide CubeRootBits;
    CubeRoot(179, 0xa2bfe8a1, 5); CubeRoot(181, 0xa81a664b, 5); CubeRoot(191, 0xc24b8b70, 5); CubeRoot(193, 0xc76c51a3, 5);
    CubeRoot(197, 0xd192e819, 5); CubeRoot(199, 0xd6990624, 5); CubeRoot(211, 0xf40e3585, 5); CubeRoot(223, 0x106aa070, 6);
  }

  lemma CubeRoots2(i: nat)
    requires i < 16
    ensures CubeRootBits(Primes2()[i], KRow2()[i])
  {
    hide CubeRootBits, Primes2, KRow2;
    if i < 8 {
      RootsLow2(i);
    } else {
      RootsHigh2(i);
    }
  }

  lemma RootsLow3(i: nat)
    requires 0 <= i < 8
    ensures CubeRootBits(Primes3()[i], KRow3()[i])
  {
    hide CubeRootBits;
    CubeRoot(227, 0x19a4c116, 6); CubeRoot(229, 0x1e376c08, 6); CubeRoot(233, 0x2748774c, 6); CubeRoot(239, 0x34b0bcb5, 6);
    CubeRoot(241, 0x391c0cb3, 6); CubeRoot(251, 0x4ed8aa4a, 6); CubeRoot(257, 0x5b9cca4f, 6); CubeRoot(263, 0x682e6ff3, 6);
  }

  lemma RootsHigh3(i: nat)
    requires 8 <= i < 16
    ensures CubeRootBits(Primes3()[i], KRow3()[i])
  {
    hide CubeRootBits;
    CubeRoot(269, 0x748f82ee, 6); CubeRoot(271, 0x78a5636f, 6); CubeRoot(277, 0x84c87814, 6); CubeRoot(281, 0x8cc70208, 6);
    CubeRoot(283, 0x90befffa, 6); CubeRoot(293, 0xa4506ceb, 6); CubeRoot(307, 0xbef9a3f7, 6); CubeRoot(311, 0xc67178f2, 6);
  }

  lemma CubeRoots3(i: nat)
    requires i < 16
    ensures CubeRootBits(Primes3()[i], KRow3()[i])
  {
    hide CubeRootBits, Primes3, KRow3;
    if i < 8 {
      RootsLow3(i);
    } else {
      RootsHigh3(i);
    }
  }

  /** Every round constant is the first 32 bits of the fractional part of the cube root of its prime. */
  lemma RoundConstants(t: nat)
    requires t < 64
    ensures CubeRootBits(Prime(t), K(t))
  {
    hide CubeRootBits, Primes0, Primes1, Primes2, Primes3, KRow0, KRow1, KRow2, KRow3;
    CubeRoots0(t % 16);
    CubeRoots1(t % 16);
    CubeRoots2(t % 16);
    CubeRoots3(t % 16);
  }

  /** Every word of the initial value is that of the square root of its prime. */
  lemma InitialValue(i: nat)
    requires i < 8
    ensures SquareRootBits(Prime(i), Words(INITIAL)[i])
  {
    hide SquareRootBits;
    SquareRoot(2, 0x6a09e667, 1); SquareRoot(3, 0xbb67ae85, 1); SquareRoot(5, 0x3c6ef372, 2); SquareRoot(7, 0xa54ff53a, 2);
    SquareRoot(11, 0x510e527f, 3); SquareRoot(13, 0x9b05688c, 3); SquareRoot(17, 0x1f83d9ab, 4); SquareRoot(19, 0x5be0cd19, 4);
  }
}
