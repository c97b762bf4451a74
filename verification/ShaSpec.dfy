/** The compression of section 6.2.2 of FIPS 180-4 for one block, up to but not including the
    final addition of the initial hash value. */
module ShaSpec {

  const MODULUS: nat := 0x1_0000_0000

  /** A 32-bit word, as a number; its bits are those of `Bits`. */
  type Word = n: nat | n < MODULUS

  function Bits(x: Word): bv32 {
    x as bv32
  }

  function FromBits(b: bv32): Word {
    b as Word
  }

  function Rotr(x: bv32, n: bv32): bv32
    requires n <= 32
  {
    (x >> n) | (x << (32 - n))
  }

  function SmallSigma0(w: Word): Word {
    FromBits(Rotr(Bits(w), 7) ^ Rotr(Bits(w), 18) ^ (Bits(w) >> 3))
  }

  function SmallSigma1(w: Word): Word {
    FromBits(Rotr(Bits(w), 17) ^ Rotr(Bits(w), 19) ^ (Bits(w) >> 10))
  }

  function BigSigma0(a: Word): Word {
    FromBits(Rotr(Bits(a), 2) ^ Rotr(Bits(a), 13) ^ Rotr(Bits(a), 22))
  }

  function BigSigma1(e: Word): Word {
    FromBits(Rotr(Bits(e), 6) ^ Rotr(Bits(e), 11) ^ Rotr(Bits(e), 25))
  }

  function Ch(e: Word, f: Word, g: Word): Word {
    FromBits((Bits(e) & Bits(f)) ^ (!Bits(e) & Bits(g)))
  }

  function Maj(a: Word, b: Word, c: Word): Word {
    FromBits((Bits(a) & Bits(b)) ^ (Bits(a) & Bits(c)) ^ (Bits(b) & Bits(c)))
  }

  /** Addition and subtraction modulo 2^32. */
  function Add(x: Word, y: Word): Word {
    (x + y) % MODULUS
  }

  function Sub(x: Word, y: Word): Word {
    (x - y) % MODULUS
  }

  /** The round constants, sixteen a row. */
  function KRow0(): (r: seq<Word>)
    ensures |r| == 16
  {
    [0x428a2f98, 0x71374491, 0xb5c0fbcf, 0xe9b5dba5, 0x3956c25b, 0x59f111f1, 0x923f82a4, 0xab1c5ed5,
     0xd807aa98, 0x12835b01, 0x243185be, 0x550c7dc3, 0x72be5d74, 0x80deb1fe, 0x9bdc06a7, 0xc19bf174]
  }

  function KRow1(): (r: seq<Word>)
    ensures |r| == 16
  {
    [0xe49b69c1, 0xefbe4786, 0x0fc19dc6, 0x240ca1cc, 0x2de92c6f, 0x4a7484aa, 0x5cb0a9dc, 0x76f988da,
     0x983e5152, 0xa831c66d, 0xb00327c8, 0xbf597fc7, 0xc6e00bf3, 0xd5a79147, 0x06ca6351, 0x14292967]
  }

  function KRow2(): (r: seq<Word>)
    ensures |r| == 16
  {
    [0x27b70a85, 0x2e1b2138, 0x4d2c6dfc, 0x53380d13, 0x650a7354, 0x766a0abb, 0x81c2c92e, 0x92722c85,
     0xa2bfe8a1, 0xa81a664b, 0xc24b8b70, 0xc76c51a3, 0xd192e819, 0xd6990624, 0xf40e3585, 0x106aa070]
  }

  function KRow3(): (r: seq<Word>)
    ensures |r| == 16
  {
    [0x19a4c116, 0x1e376c08, 0x2748774c, 0x34b0bcb5, 0x391c0cb3, 0x4ed8aa4a, 0x5b9cca4f, 0x682e6ff3,
     0x748f82ee, 0x78a5636f, 0x84c87814, 0x8cc70208, 0x90befffa, 0xa4506ceb, 0xbef9a3f7, 0xc67178f2]
  }

  function KTable(): (r: seq<Word>)
    ensures |r| == 64
  {
    KRow0() + KRow1() + KRow2() + KRow3()
  }

  function K(i: nat): Word
    requires i < 64
  {
    KTable()[i]
  }

  /** The eight working variables. */
  datatype Regs = Regs(a: Word, b: Word, c: Word, d: Word, e: Word, f: Word, g: Word, h: Word)

  const INITIAL := Regs(0x6a09e667, 0xbb67ae85, 0x3c6ef372, 0xa54ff53a, 0x510e527f, 0x9b05688c, 0x1f83d9ab, 0x5be0cd19)

  /** One round with constant `k` and schedule word `w`. */
  function Round(s: Regs, k: Word, w: Word): Regs {
    var t1 := Add(Add(Add(Add(s.h, BigSigma1(s.e)), Ch(s.e, s.f, s.g)), k), w);
    var t2 := Add(BigSigma0(s.a), Maj(s.a, s.b, s.c));
    Regs(Add(t1, t2), s.a, s.b, s.c, Add(s.d, t1), s.e, s.f, s.g)
  }

  /** The padded block of an 8-byte message with words `w0` and `w1`. */
  function Block(w0: Word, w1: Word): (m: seq<Word>)
    ensures |m| == 16
  {
    [w0, w1, 0x80000000, 0, 0, 0, 0, 0, 0, 0, 0, 0, 0, 0, 0, 64]
  }

  /** The schedule word that follows from those 2, 7, 15 and 16 places before it. */
  function Mix(w2: Word, w7: Word, w15: Word, w16: Word): Word {
    Add(Add(Add(SmallSigma1(w2), w7), SmallSigma0(w15)), w16)
  }

  /** The message schedule. */
  function W(m: seq<Word>, t: nat): Word
    requires |m| == 16
  {
    if t < 16 then m[t] else Mix(W(m, t - 2), W(m, t - 7), W(m, t - 15), W(m, t - 16))
  }

  /** The working variables after `t` rounds. */
  function State(m: seq<Word>, t: nat): Regs
    requires |m| == 16 && t <= 64
  {
    if t == 0 then INITIAL else Round(State(m, t - 1), K(t - 1), W(m, t - 1))
  }

  /** What every implementation leaves in its output: the working variables after the last round. */
  function Compress(w0: Word, w1: Word): Regs {
    State(Block(w0, w1), 64)
  }

  // ------------------------------------------------------------------
  // What the word operations do to the bits
  // ------------------------------------------------------------------

  lemma BitsBack(b: bv32)
    ensures Bits(FromBits(b)) == b
  {
  }

  /** `r` is `x` moved `n` places to the right, with the `n` lowest bits come in at the top. */
  predicate Turned(x: bv32, n: bv32, r: bv32)
    requires n <= 32
  {
    r & ((1 << (32 - n)) - 1) == x >> n && r >> (32 - n) == x & ((1 << n) - 1)
  }

  // The amounts in use, one by one: with a known amount the bits can be compared.

  lemma Turned2(x: bv32)
    ensures Turned(x, 2, Rotr(x, 2))
  {
  }

  lemma Turned6(x: bv32)
    ensures Turned(x, 6, Rotr(x, 6))
  {
  }

  lemma Turned7(x: bv32)
    ensures Turned(x, 7, Rotr(x, 7))
  {
  }

  lemma Turned11(x: bv32)
    ensures Turned(x, 11, Rotr(x, 11))
  {
  }

  lemma Turned13(x: bv32)
    ensures Turned(x, 13, Rotr(x, 13))
  {
  }

  lemma Turned17(x: bv32)
    ensures Turned(x, 17, Rotr(x, 17))
  {
  }

  lemma Turned18(x: bv32)
    ensures Turned(x, 18, Rotr(x, 18))
  {
  }

  lemma Turned19(x: bv32)
    ensures Turned(x, 19, Rotr(x, 19))
  {
  }

  lemma Turned22(x: bv32)
    ensures Turned(x, 22, Rotr(x, 22))
  {
  }

  lemma Turned25(x: bv32)
    ensures Turned(x, 25, Rotr(x, 25))
  {
  }

  /** Rotation turns a word to the right, by every amount in use. */
  lemma RotrTurns(x: bv32, n: nat)
    requires n in {2, 6, 7, 11, 13, 17, 18, 19, 22, 25}
    ensures Turned(x, n as bv32, Rotr(x, n as bv32))
  {
    hide Turned, Rotr;
    Turned2(x); Turned6(x); Turned7(x); Turned11(x); Turned13(x);
    Turned17(x); Turned18(x); Turned19(x); Turned22(x); Turned25(x);
  }

  /** Choice takes the bits of `f` where `e` has ones, and those of `g` elsewhere. */
  lemma ChChooses(e: Word, f: Word, g: Word)
    ensures Bits(Ch(e, f, g)) & Bits(e) == Bits(f) & Bits(e)
    ensures Bits(Ch(e, f, g)) & !Bits(e) == Bits(g) & !Bits(e)
  {
    hide Bits, FromBits;
    BitsBack((Bits(e) & Bits(f)) ^ (!Bits(e) & Bits(g)));
  }

  /** Majority takes the bits of `a` where `a` and `b` agree, and those of `c` elsewhere. */
  lemma MajCounts(a: Word, b: Word, c: Word)
    ensures Bits(Maj(a, b, c)) & !(Bits(a) ^ Bits(b)) == Bits(a) & !(Bits(a) ^ Bits(b))
    ensures Bits(Maj(a, b, c)) & (Bits(a) ^ Bits(b)) == Bits(c) & (Bits(a) ^ Bits(b))
  {
    hide Bits, FromBits;
    BitsBack((Bits(a) & Bits(b)) ^ (Bits(a) & Bits(c)) ^ (Bits(b) & Bits(c)));
  }

  lemma NextState(m: seq<Word>, t: nat)
    requires |m| == 16 && t < 64
    ensures State(m, t + 1) == Round(State(m, t), K(t), W(m, t))
  {
  }

  // ------------------------------------------------------------------
  // The schedule of an 8-byte message, with what is constant folded in
  // ------------------------------------------------------------------

  // Sums of words, rearranged.

  lemma AddZero(x: Word)
    ensures Add(x, 0) == x && Add(0, x) == x
  {
  }

  lemma AddComm(x: Word, y: Word)
    ensures Add(x, y) == Add(y, x)
  {
  }

  lemma AddPlain(x: Word, y: Word)
    ensures Add(x, y) == if x + y < MODULUS then x + y else x + y - MODULUS
  {
  }

  lemma AddAssoc(x: Word, y: Word, z: Word)
    ensures Add(Add(x, y), z) == Add(x, Add(y, z))
  {
    hide Add;
    AddPlain(x, y);
    AddPlain(Add(x, y), z);
    AddPlain(y, z);
    AddPlain(x, Add(y, z));
  }

  lemma SubAdd(x: Word, y: Word)
    ensures Sub(Add(x, y), y) == x && Sub(Add(x, y), x) == y
  {
  }

  lemma AddTurn(x: Word, y: Word, z: Word, v: Word)
    ensures Add(x, y) == Add(y, x)
    ensures Add(Add(x, y), z) == Add(Add(z, y), x)
    ensures Add(Add(Add(x, y), z), v) == Add(Add(Add(v, z), y), x)
  {
    hide Add;
    AddComm(x, y);
    AddComm(Add(x, y), z);
    AddComm(Add(Add(x, y), z), v);
    AddAssoc(z, y, x);
    AddAssoc(v, z, Add(y, x));
    AddAssoc(Add(v, z), y, x);
  }

  lemma SigmaZero()
    ensures SmallSigma0(0) == 0 && SmallSigma1(0) == 0
  {
  }

  lemma MixFolds(x: Word, y: Word, z: Word)
    ensures Mix(0, 0, y, z) == Add(z, SmallSigma0(y))
    ensures Mix(x, 0, y, z) == Add(Add(z, SmallSigma0(y)), SmallSigma1(x))
    ensures Mix(x, 0, 0, z) == Add(z, SmallSigma1(x))
    ensures Mix(x, 0, 0, 0) == SmallSigma1(x)
    ensures Mix(x, y, 0, 0) == Add(y, SmallSigma1(x))
    ensures Mix(x, y, z, 0) == Add(Add(SmallSigma0(z), y), SmallSigma1(x))
    ensures Mix(x, y, z, 64) == Add(Add(Add(64, SmallSigma0(z)), y), SmallSigma1(x))
  {
    hide SmallSigma0, SmallSigma1, Add;
    SigmaZero();
    AddZero(SmallSigma1(x));
    AddZero(SmallSigma0(y));
    AddZero(Add(SmallSigma1(x), y));
    AddZero(Add(Add(SmallSigma1(x), y), SmallSigma0(z)));
    AddZero(0);
    AddTurn(SmallSigma0(y), z, 0, 0);
    AddTurn(SmallSigma1(x), z, 0, 0);
    AddTurn(SmallSigma1(x), y, 0, 0);
    AddTurn(SmallSigma1(x), SmallSigma0(y), z, 0);
    AddTurn(SmallSigma1(x), y, SmallSigma0(z), 64);
  }

  /** The first 32 schedule words of an 8-byte message: most terms of the recurrence are zero or
      constant. */
  lemma Folded(w0: Word, w1: Word, t: nat)
    requires 16 <= t < 32
    ensures var m := Block(w0, w1);
            W(m, t) ==
            if t == 16 then Add(w0, SmallSigma0(w1))
            else if t == 17 then Add(Add(w1, SmallSigma0(0x80000000)), SmallSigma1(64))
            else if t == 18 then Add(0x80000000, SmallSigma1(W(m, 16)))
            else if t < 22 then SmallSigma1(W(m, t - 2))
            else if t == 22 then Add(64, SmallSigma1(W(m, 20)))
            else if t < 30 then Add(W(m, t - 7), SmallSigma1(W(m, t - 2)))
            else if t == 30 then Add(Add(SmallSigma0(64), W(m, 23)), SmallSigma1(W(m, 28)))
            else Add(Add(Add(64, SmallSigma0(W(m, 16))), W(m, 24)), SmallSigma1(W(m, 29)))
  {
    hide SmallSigma0, SmallSigma1, Mix, W, Add;
    var m := Block(w0, w1);
    FoldedWords(w0, w1, t);
    MixFolds(W(m, t - 2), W(m, t - 15), W(m, t - 16));
    MixFolds(W(m, t - 2), W(m, t - 7), W(m, t - 15));
  }

  /** The recurrence, with the words that are known. */
  lemma FoldedWords(w0: Word, w1: Word, t: nat)
    requires 16 <= t < 32
    ensures var m := Block(w0, w1);
            && W(m, t) == Mix(W(m, t - 2), W(m, t - 7), W(m, t - 15), W(m, t - 16))
            && (t < 18 ==> W(m, t - 2) == if t == 16 then 0 else 64)
            && (t < 22 ==> W(m, t - 7) == 0)
            && (t == 22 ==> W(m, t - 7) == 64)
            && (t < 31 ==> W(m, t - 15) == if t == 16 then w1 else if t == 17 then 0x80000000 else if t < 30 then 0 else 64)
            && (W(m, t - 16) == if t == 16 then w0 else if t == 17 then w1 else if t == 18 then 0x80000000
                                else if t < 31 then 0 else 64)
  {
    hide Mix, Block;
    BlockWords(w0, w1);
  }

  lemma BlockWords(w0: Word, w1: Word)
    ensures var m := Block(w0, w1);
            m[0] == w0 && m[1] == w1 && m[2] == 0x80000000 && (forall i :: 3 <= i < 15 ==> m[i] == 0) && m[15] == 64
  {
  }
}
