/** Four messages at once: vectors of four words, one lane a message. The integer and bit
    instructions act on each lane alone, so a vector function is given by what it does to a lane. */
module ShaVector {
  import opened ShaSpec
  import opened ShaScalar

  datatype V4 = V4(x0: Word, x1: Word, x2: Word, x3: Word)

  function Lane(v: V4, i: nat): Word
    requires i < 4
  {
    if i == 0 then v.x0 else if i == 1 then v.x1 else if i == 2 then v.x2 else v.x3
  }

  function Broadcast(x: Word): V4 {
    V4(x, x, x, x)
  }

  function VAdd(u: V4, v: V4): V4 {
    V4(Add(u.x0, v.x0), Add(u.x1, v.x1), Add(u.x2, v.x2), Add(u.x3, v.x3))
  }

  // What the vector round functions do to one lane: the exclusive-ors associate to the right.

  function LaneSmallSigma0(w: Word): Word {
    FromBits(Rotr(Bits(w), 7) ^ (Rotr(Bits(w), 18) ^ (Bits(w) >> 3)))
  }

  function LaneSmallSigma1(w: Word): Word {
    FromBits(Rotr(Bits(w), 17) ^ (Rotr(Bits(w), 19) ^ (Bits(w) >> 10)))
  }

  function LaneBigSigma0(a: Word): Word {
    FromBits(Rotr(Bits(a), 2) ^ (Rotr(Bits(a), 13) ^ Rotr(Bits(a), 22)))
  }

  function LaneBigSigma1(e: Word): Word {
    FromBits(Rotr(Bits(e), 6) ^ (Rotr(Bits(e), 11) ^ Rotr(Bits(e), 25)))
  }

  function LaneMaj(a: Word, b: Word, c: Word): Word {
    FromBits((Bits(a) & Bits(b)) ^ ((Bits(a) & Bits(c)) ^ (Bits(b) & Bits(c))))
  }

  lemma LaneFunctions(a: Word, b: Word, c: Word)
    ensures LaneSmallSigma0(a) == SmallSigma0(a) && LaneSmallSigma1(a) == SmallSigma1(a)
    ensures LaneBigSigma0(a) == BigSigma0(a) && LaneBigSigma1(a) == BigSigma1(a)
    ensures LaneMaj(a, b, c) == Maj(a, b, c)
  {
    hide FromBits, Bits;
  }

  function VSmallSigma0(w: V4): V4 {
    V4(LaneSmallSigma0(w.x0), LaneSmallSigma0(w.x1), LaneSmallSigma0(w.x2), LaneSmallSigma0(w.x3))
  }

  function VSmallSigma1(w: V4): V4 {
    V4(LaneSmallSigma1(w.x0), LaneSmallSigma1(w.x1), LaneSmallSigma1(w.x2), LaneSmallSigma1(w.x3))
  }

  function VBigSigma0(a: V4): V4 {
    V4(LaneBigSigma0(a.x0), LaneBigSigma0(a.x1), LaneBigSigma0(a.x2), LaneBigSigma0(a.x3))
  }

  function VBigSigma1(e: V4): V4 {
    V4(LaneBigSigma1(e.x0), LaneBigSigma1(e.x1), LaneBigSigma1(e.x2), LaneBigSigma1(e.x3))
  }

  function VCh(e: V4, f: V4, g: V4): V4 {
    V4(Ch(e.x0, f.x0, g.x0), Ch(e.x1, f.x1, g.x1), Ch(e.x2, f.x2, g.x2), Ch(e.x3, f.x3, g.x3))
  }

  function VMaj(a: V4, b: V4, c: V4): V4 {
    V4(LaneMaj(a.x0, b.x0, c.x0), LaneMaj(a.x1, b.x1, c.x1), LaneMaj(a.x2, b.x2, c.x2), LaneMaj(a.x3, b.x3, c.x3))
  }

  /** The eight working variables of four messages. */
  datatype VRegs = VRegs(a: V4, b: V4, c: V4, d: V4, e: V4, f: V4, g: V4, h: V4)

  function LaneRegs(r: VRegs, i: nat): Regs
    requires i < 4
  {
    Regs(Lane(r.a, i), Lane(r.b, i), Lane(r.c, i), Lane(r.d, i), Lane(r.e, i), Lane(r.f, i), Lane(r.g, i), Lane(r.h, i))
  }

  /** One round on four messages; the sums associate differently from the scalar round. */
  function VRound(s: VRegs, k: Word, w: V4): VRegs {
    var temp2 := VAdd(VBigSigma0(s.a), VMaj(s.a, s.b, s.c));
    var temp1 := VAdd(VAdd(VBigSigma1(s.e), VCh(s.e, s.f, s.g)), VAdd(s.h, VAdd(Broadcast(k), w)));
    VRegs(VAdd(temp1, temp2), s.a, s.b, s.c, VAdd(s.d, temp1), s.e, s.f, s.g)
  }

  /** A round without a schedule word. */
  function VRoundZero(s: VRegs, k: Word): VRegs {
    var temp2 := VAdd(VBigSigma0(s.a), VMaj(s.a, s.b, s.c));
    var temp1 := VAdd(VAdd(VBigSigma1(s.e), VCh(s.e, s.f, s.g)), VAdd(s.h, Broadcast(k)));
    VRegs(VAdd(temp1, temp2), s.a, s.b, s.c, VAdd(s.d, temp1), s.e, s.f, s.g)
  }

  lemma SumOfFive(h: Word, s: Word, c: Word, k: Word, w: Word)
    ensures Add(Add(s, c), Add(h, Add(k, w))) == Add(Add(Add(Add(h, s), c), k), w)
    ensures Add(Add(s, c), Add(h, k)) == Add(Add(Add(h, s), c), k)
  {
    hide Add;
    AddComm(Add(s, c), Add(h, Add(k, w)));
    AddAssoc(h, Add(k, w), Add(s, c));
    AddComm(Add(k, w), Add(s, c));
    AddAssoc(Add(s, c), k, w);
    AddAssoc(h, Add(s, c), k);
    AddAssoc(h, s, c);
    AddAssoc(h, Add(Add(s, c), k), w);
    AddComm(Add(s, c), Add(h, k));
    AddAssoc(h, k, Add(s, c));
    AddComm(k, Add(s, c));
  }

  /** Every lane of a vector round is a scalar round. */
  lemma LaneRound(s: VRegs, k: Word, w: V4, i: nat)
    requires i < 4
    ensures LaneRegs(VRound(s, k, w), i) == Round(LaneRegs(s, i), k, Lane(w, i))
    ensures LaneRegs(VRoundZero(s, k), i) == RoundZero(LaneRegs(s, i), k)
  {
    hide Add, SmallSigma0, SmallSigma1, BigSigma0, BigSigma1, Ch, Maj;
    hide LaneSmallSigma0, LaneSmallSigma1, LaneBigSigma0, LaneBigSigma1, LaneMaj;
    var r := LaneRegs(s, i);
    LaneFunctions(r.a, r.b, r.c);
    LaneFunctions(r.e, r.b, r.c);
    SumOfFive(r.h, BigSigma1(r.e), Ch(r.e, r.f, r.g), k, Lane(w, i));
  }

  // ------------------------------------------------------------------
  // Schedule and state of four messages
  // ------------------------------------------------------------------

  function LaneBlock(w0: V4, w1: V4, i: nat): (m: seq<Word>)
    requires i < 4
    ensures |m| == 16
  {
    Block(Lane(w0, i), Lane(w1, i))
  }

  function VW(w0: V4, w1: V4, t: nat): V4 {
    V4(W(LaneBlock(w0, w1, 0), t), W(LaneBlock(w0, w1, 1), t), W(LaneBlock(w0, w1, 2), t), W(LaneBlock(w0, w1, 3), t))
  }

  /** Four states side by side. */
  function Gather(r0: Regs, r1: Regs, r2: Regs, r3: Regs): VRegs {
    VRegs(V4(r0.a, r1.a, r2.a, r3.a), V4(r0.b, r1.b, r2.b, r3.b), V4(r0.c, r1.c, r2.c, r3.c), V4(r0.d, r1.d, r2.d, r3.d),
          V4(r0.e, r1.e, r2.e, r3.e), V4(r0.f, r1.f, r2.f, r3.f), V4(r0.g, r1.g, r2.g, r3.g), V4(r0.h, r1.h, r2.h, r3.h))
  }

  function VState(w0: V4, w1: V4, t: nat): VRegs
    requires t <= 64
  {
    Gather(State(LaneBlock(w0, w1, 0), t), State(LaneBlock(w0, w1, 1), t),
           State(LaneBlock(w0, w1, 2), t), State(LaneBlock(w0, w1, 3), t))
  }

  lemma LanesDetermine(u: VRegs, v: VRegs)
    requires LaneRegs(u, 0) == LaneRegs(v, 0) && LaneRegs(u, 1) == LaneRegs(v, 1)
    requires LaneRegs(u, 2) == LaneRegs(v, 2) && LaneRegs(u, 3) == LaneRegs(v, 3)
    ensures u == v
  {
  }

  lemma VStateLane(w0: V4, w1: V4, t: nat, i: nat)
    requires i < 4 && t <= 64
    ensures LaneRegs(VState(w0, w1, t), i) == State(LaneBlock(w0, w1, i), t)
    ensures Lane(VW(w0, w1, t), i) == W(LaneBlock(w0, w1, i), t)
  {
    hide State, W;
  }

  lemma VNext(w0: V4, w1: V4, t: nat)
    requires t < 64
    ensures VRound(VState(w0, w1, t), K(t), VW(w0, w1, t)) == VState(w0, w1, t + 1)
    ensures VW(w0, w1, t) == Broadcast(0) ==> VRoundZero(VState(w0, w1, t), K(t)) == VState(w0, w1, t + 1)
  {
    hide State, W, VRound, VRoundZero, Round, RoundZero, VState, VW, LaneBlock, K, LaneRegs;
    var s, w := VState(w0, w1, t), VW(w0, w1, t);
    forall i | 0 <= i < 4
      ensures LaneRegs(VRound(s, K(t), w), i) == LaneRegs(VState(w0, w1, t + 1), i)
      ensures w == Broadcast(0) ==> LaneRegs(VRoundZero(s, K(t)), i) == LaneRegs(VState(w0, w1, t + 1), i)
    {
      VStateLane(w0, w1, t, i);
      VStateLane(w0, w1, t + 1, i);
      LaneRound(s, K(t), w, i);
      NextState(LaneBlock(w0, w1, i), t);
      RoundZeroIsRound(LaneRegs(s, i), K(t));
    }
    LanesDetermine(VRound(s, K(t), w), VState(w0, w1, t + 1));
    if w == Broadcast(0) { LanesDetermine(VRoundZero(s, K(t)), VState(w0, w1, t + 1)); }
  }

  lemma VBlockWords(w0: V4, w1: V4, t: nat)
    requires t < 16
    ensures VW(w0, w1, t) == if t == 0 then w0 else if t == 1 then w1 else if t == 2 then Broadcast(0x80000000)
                             else if t < 15 then Broadcast(0) else Broadcast(64)
  {
    hide W;
    forall i | 0 <= i < 4 ensures W(LaneBlock(w0, w1, i), t) == LaneBlock(w0, w1, i)[t] {
      FirstWords(LaneBlock(w0, w1, i), t);
    }
  }

  // The sums of the vector code, against those of the folded schedule.

  lemma FoldedSums(x: Word, y: Word, z: Word, v: Word)
    ensures Add(x, Add(y, z)) == Add(Add(x, y), z)
    ensures Add(Add(x, y), Add(z, v)) == Add(Add(Add(z, v), x), y)
    ensures Add(Add(x, y), Add(z, v)) == Add(Add(Add(v, y), z), x)
  {
    hide Add;
    AddAssoc(x, y, z);
    AddComm(Add(x, y), Add(z, v));
    AddAssoc(Add(z, v), x, y);
    AddComm(x, y);
    AddComm(z, v);
    AddAssoc(Add(v, z), y, x);
    SwapLast(v, z, y);
  }

  /** The schedule words 16 to 31 of four messages, as the vector code sums them. */
  lemma VFolded(w0: V4, w1: V4, t: nat)
    requires 16 <= t < 32
    ensures VW(w0, w1, t) ==
            if t == 16 then VAdd(w0, VSmallSigma0(w1))
            else if t == 17 then VAdd(w1, VAdd(VSmallSigma0(Broadcast(0x80000000)), VSmallSigma1(Broadcast(64))))
            else if t == 18 then VAdd(Broadcast(0x80000000), VSmallSigma1(VW(w0, w1, 16)))
            else if t < 22 then VSmallSigma1(VW(w0, w1, t - 2))
            else if t == 22 then VAdd(Broadcast(64), VSmallSigma1(VW(w0, w1, 20)))
            else if t < 30 then VAdd(VW(w0, w1, t - 7), VSmallSigma1(VW(w0, w1, t - 2)))
            else if t == 30 then VAdd(VSmallSigma0(Broadcast(64)), VAdd(VW(w0, w1, 23), VSmallSigma1(VW(w0, w1, 28))))
            else VAdd(VAdd(VW(w0, w1, 24), VSmallSigma1(VW(w0, w1, 29))), VAdd(Broadcast(64), VSmallSigma0(VW(w0, w1, 16))))
  {
    hide Add, W, SmallSigma0, SmallSigma1, LaneSmallSigma0, LaneSmallSigma1;
    LaneFolded(w0, w1, t, 0);
    LaneFolded(w0, w1, t, 1);
    LaneFolded(w0, w1, t, 2);
    LaneFolded(w0, w1, t, 3);
  }

  lemma LaneFolded(w0: V4, w1: V4, t: nat, i: nat)
    requires 16 <= t < 32 && i < 4
    ensures var m := LaneBlock(w0, w1, i);
            W(m, t) ==
            if t == 16 then Add(Lane(w0, i), LaneSmallSigma0(Lane(w1, i)))
            else if t == 17 then Add(Lane(w1, i), Add(LaneSmallSigma0(0x80000000), LaneSmallSigma1(64)))
            else if t == 18 then Add(0x80000000, LaneSmallSigma1(W(m, 16)))
            else if t < 22 then LaneSmallSigma1(W(m, t - 2))
            else if t == 22 then Add(64, LaneSmallSigma1(W(m, 20)))
            else if t < 30 then Add(W(m, t - 7), LaneSmallSigma1(W(m, t - 2)))
            else if t == 30 then Add(LaneSmallSigma0(64), Add(W(m, 23), LaneSmallSigma1(W(m, 28))))
            else Add(Add(W(m, 24), LaneSmallSigma1(W(m, 29))), Add(64, LaneSmallSigma0(W(m, 16))))
  {
    hide Add, W, SmallSigma0, SmallSigma1, LaneSmallSigma0, LaneSmallSigma1, LaneBigSigma0, LaneBigSigma1, LaneMaj, Block;
    var m := LaneBlock(w0, w1, i);
    var x, y := Lane(w0, i), Lane(w1, i);
    Folded(x, y, t);
    LaneFunctions(W(m, t - 2), 0, 0);
    LaneFunctions(y, 0, 0);
    LaneFunctions(0x80000000, 0, 0);
    LaneFunctions(64, 0, 0);
    LaneFunctions(W(m, 16), 0, 0);
    FoldedSums(y, SmallSigma0(0x80000000), SmallSigma1(64), 0);
    FoldedSums(SmallSigma0(64), W(m, 23), SmallSigma1(W(m, 28)), 0);
    FoldedSums(W(m, 24), SmallSigma1(W(m, 29)), 64, SmallSigma0(W(m, 16)));
  }

  /** And the words after that. */
  lemma VLoopWord(w0: V4, w1: V4, t: nat)
    requires 32 <= t
    ensures VW(w0, w1, t) == VAdd(VAdd(VW(w0, w1, t - 16), VW(w0, w1, t - 7)),
                                  VAdd(VSmallSigma0(VW(w0, w1, t - 15)), VSmallSigma1(VW(w0, w1, t - 2))))
  {
    hide Add, W, SmallSigma0, SmallSigma1, LaneSmallSigma0, LaneSmallSigma1, LaneBlock;
    LaneLoopWord(LaneBlock(w0, w1, 0), t);
    LaneLoopWord(LaneBlock(w0, w1, 1), t);
    LaneLoopWord(LaneBlock(w0, w1, 2), t);
    LaneLoopWord(LaneBlock(w0, w1, 3), t);
  }

  lemma LaneLoopWord(m: seq<Word>, t: nat)
    requires |m| == 16 && 32 <= t
    ensures W(m, t) == Add(Add(W(m, t - 16), W(m, t - 7)), Add(LaneSmallSigma0(W(m, t - 15)), LaneSmallSigma1(W(m, t - 2))))
  {
    hide Add, SmallSigma0, SmallSigma1, LaneSmallSigma0, LaneSmallSigma1;
    LaneFunctions(W(m, t - 15), 0, 0);
    LaneFunctions(W(m, t - 2), 0, 0);
    FoldedSums(W(m, t - 16), W(m, t - 7), SmallSigma0(W(m, t - 15)), SmallSigma1(W(m, t - 2)));
  }
}
