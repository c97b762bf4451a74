/** Two four-message implementations: one keeps the schedule in sixteen slots used in a circle, one
    in a slot for every word. */
module ShaFour {
  import opened MachineInts
  import opened ShaSpec
  import opened ShaScalar
  import opened ShaVector

  // Interleave the low halves, or the high halves, of two vectors; join low halves; join high halves.

  function UnpackLo(u: V4, v: V4): V4 {
    V4(u.x0, v.x0, u.x1, v.x1)
  }

  function UnpackHi(u: V4, v: V4): V4 {
    V4(u.x2, v.x2, u.x3, v.x3)
  }

  function MoveLh(u: V4, v: V4): V4 {
    V4(u.x0, u.x1, v.x0, v.x1)
  }

  function MoveHl(u: V4, v: V4): V4 {
    V4(v.x2, v.x3, u.x2, u.x3)
  }

  /** Swap the bytes of every word. */
  function VBswap(v: V4): V4 {
    V4(Bswap(v.x0), Bswap(v.x1), Bswap(v.x2), Bswap(v.x3))
  }

  function LoadVector(data: seq<Byte>, i: nat): V4
    requires i + 16 <= |data|
  {
    V4(LittleEndian(data, i), LittleEndian(data, i + 4), LittleEndian(data, i + 8), LittleEndian(data, i + 12))
  }

  /** The two words of four 8-byte messages, interleaved so that each lane holds one message. */
  method LoadMessages(data: seq<Byte>) returns (w0: V4, w1: V4)
    requires |data| == 32
    ensures forall i :: 0 <= i < 4 ==> Lane(w0, i) == BigEndian(data[8 * i..8 * i + 8], 0)
    ensures forall i :: 0 <= i < 4 ==> Lane(w1, i) == BigEndian(data[8 * i..8 * i + 8], 4)
  {
    hide Join, Bswap;
    var h0, h1 := VBswap(LoadVector(data, 0)), VBswap(LoadVector(data, 16));
    var lo, hi := UnpackLo(h0, h1), UnpackHi(h0, h1);
    w0, w1 := UnpackLo(lo, hi), UnpackHi(lo, hi);
    forall i | 0 <= i < 4
      ensures Bswap(LittleEndian(data, 8 * i)) == BigEndian(data[8 * i..8 * i + 8], 0)
      ensures Bswap(LittleEndian(data, 8 * i + 4)) == BigEndian(data[8 * i..8 * i + 8], 4)
    {
      BswapLoads(data, 8 * i);
      BswapLoads(data, 8 * i + 4);
    }
  }

  /** The rounds on the message blocks: 0 to 15. */
  method MessageRounds4(w0: V4, w1: V4) returns (r: VRegs)
    ensures r == VState(w0, w1, 16)
  {
    hide VState, VW, VRound, VRoundZero, K;
    r := VRegs(Broadcast(INITIAL.a), Broadcast(INITIAL.b), Broadcast(INITIAL.c), Broadcast(INITIAL.d),
               Broadcast(INITIAL.e), Broadcast(INITIAL.f), Broadcast(INITIAL.g), Broadcast(INITIAL.h));
    VStart(w0, w1);
    forall t | 0 <= t < 16
      ensures VW(w0, w1, t) == if t == 0 then w0 else if t == 1 then w1 else if t == 2 then Broadcast(0x80000000)
                               else if t < 15 then Broadcast(0) else Broadcast(64)
    {
      VBlockWords(w0, w1, t);
    }
    var c80, c64 := Broadcast(0x80000000), Broadcast(64);
    VNext(w0, w1, 0);
    r := VRound(r, K(0), w0);
    VNext(w0, w1, 1);
    r := VRound(r, K(1), w1);
    VNext(w0, w1, 2);
    r := VRound(r, K(2), c80);
    for i := 3 to 15
      invariant r == VState(w0, w1, i)
    {
      VNext(w0, w1, i);
      r := VRoundZero(r, K(i));
    }
    VNext(w0, w1, 15);
    r := VRound(r, K(15), c64);
  }

  lemma VStart(w0: V4, w1: V4)
    ensures VState(w0, w1, 0)
         == VRegs(Broadcast(INITIAL.a), Broadcast(INITIAL.b), Broadcast(INITIAL.c), Broadcast(INITIAL.d),
                  Broadcast(INITIAL.e), Broadcast(INITIAL.f), Broadcast(INITIAL.g), Broadcast(INITIAL.h))
  {
    hide W;
  }

  /** Rounds 16 to 31, with the schedule words stored from slot 0 on; `t0` and `t1` take turns
      carrying the last two words. */
  method FoldedRounds4(w: array<V4>, w0: V4, w1: V4, start: VRegs) returns (r: VRegs, t0: V4, t1: V4)
    requires w.Length >= 16 && start == VState(w0, w1, 16)
    modifies w
    ensures r == VState(w0, w1, 32) && t0 == VW(w0, w1, 30) && t1 == VW(w0, w1, 31)
    ensures forall j :: 0 <= j < 16 ==> w[j] == VW(w0, w1, j + 16)
  {
    hide VState, VW, VRound, K, VAdd, VSmallSigma0, VSmallSigma1;
    r, t0, t1 := FoldedStart4(w, w0, w1, start);
    r, t0, t1 := FoldedRest4(w, w0, w1, r, t0, t1);
    {
      VFolded(w0, w1, 30);
      VNext(w0, w1, 30);
      var w30 := VAdd(VSmallSigma0(Broadcast(64)), VAdd(w[7], VSmallSigma1(t0)));
      w[14], t0 := w30, w30;
      r := VRound(r, K(30), t0);
    }
    {
      VFolded(w0, w1, 31);
      VNext(w0, w1, 31);
      var w31 := VAdd(VAdd(w[8], VSmallSigma1(t1)), VAdd(Broadcast(64), VSmallSigma0(w[0])));
      w[15], t1 := w31, w31;
      r := VRound(r, K(31), t1);
    }
  }

  /** Rounds 16 to 22. */
  method FoldedStart4(w: array<V4>, w0: V4, w1: V4, start: VRegs) returns (r: VRegs, t0: V4, t1: V4)
    requires w.Length >= 16 && start == VState(w0, w1, 16)
    modifies w
    ensures r == VState(w0, w1, 23) && t0 == VW(w0, w1, 22) && t1 == VW(w0, w1, 21)
    ensures forall j :: 0 <= j < 7 ==> w[j] == VW(w0, w1, j + 16)
  {
    hide VState, VW, VRound, K, VAdd, VSmallSigma0, VSmallSigma1;
    r, t0, t1 := start, w0, w1;
    var c80, c64 := Broadcast(0x80000000), Broadcast(64);
    {
      VFolded(w0, w1, 16);
      VNext(w0, w1, 16);
      var w16 := VAdd(t0, VSmallSigma0(t1));
      w[0], t0 := w16, w16;
      r := VRound(r, K(16), t0);
    }
    {
      VFolded(w0, w1, 17);
      VNext(w0, w1, 17);
      var w17 := VAdd(t1, VAdd(VSmallSigma0(c80), VSmallSigma1(c64)));
      w[1], t1 := w17, w17;
      r := VRound(r, K(17), t1);
    }
    {
      VFolded(w0, w1, 18);
      VNext(w0, w1, 18);
      var w18 := VAdd(c80, VSmallSigma1(t0));
      w[2], t0 := w18, w18;
      r := VRound(r, K(18), t0);
    }
    {
      VFolded(w0, w1, 19);
      VNext(w0, w1, 19);
      var w19 := VSmallSigma1(t1);
      w[3], t1 := w19, w19;
      r := VRound(r, K(19), t1);
    }
    {
      VFolded(w0, w1, 20);
      VNext(w0, w1, 20);
      var w20 := VSmallSigma1(t0);
      w[4], t0 := w20, w20;
      r := VRound(r, K(20), t0);
    }
    {
      VFolded(w0, w1, 21);
      VNext(w0, w1, 21);
      var w21 := VSmallSigma1(t1);
      w[5], t1 := w21, w21;
      r := VRound(r, K(21), t1);
    }
    {
      VFolded(w0, w1, 22);
      VNext(w0, w1, 22);
      var w22 := VAdd(c64, VSmallSigma1(t0));
      w[6], t0 := w22, w22;
      r := VRound(r, K(22), t0);
    }
  }

  /** Rounds 23 to 29: each adds the word seven places back, kept in turn in `l0` and `l1`. */
  method FoldedRest4(w: array<V4>, w0: V4, w1: V4, start: VRegs, last: V4, before: V4) returns (r: VRegs, t0: V4, t1: V4)
    requires w.Length >= 16 && start == VState(w0, w1, 23) && last == VW(w0, w1, 22) && before == VW(w0, w1, 21)
    requires forall j :: 0 <= j < 7 ==> w[j] == VW(w0, w1, j + 16)
    modifies w
    ensures r == VState(w0, w1, 30) && t0 == VW(w0, w1, 28) && t1 == VW(w0, w1, 29)
    ensures forall j :: 0 <= j < 14 ==> w[j] == VW(w0, w1, j + 16)
  {
    hide VState, VW, VRound, K, VAdd, VSmallSigma0, VSmallSigma1;
    r, t0, t1 := start, last, before;
    var l0, l1 := w[0], w[1];
    {
      VFolded(w0, w1, 23);
      VNext(w0, w1, 23);
      var w23 := VAdd(l0, VSmallSigma1(t1));
      w[7], t1 := w23, w23;
      r := VRound(r, K(23), t1);
      l0 := w[2];
    }
    {
      VFolded(w0, w1, 24);
      VNext(w0, w1, 24);
      var w24 := VAdd(l1, VSmallSigma1(t0));
      w[8], t0 := w24, w24;
      r := VRound(r, K(24), t0);
      l1 := w[3];
    }
    {
      VFolded(w0, w1, 25);
      VNext(w0, w1, 25);
      var w25 := VAdd(l0, VSmallSigma1(t1));
      w[9], t1 := w25, w25;
      r := VRound(r, K(25), t1);
      l0 := w[4];
    }
    {
      VFolded(w0, w1, 26);
      VNext(w0, w1, 26);
      var w26 := VAdd(l1, VSmallSigma1(t0));
      w[10], t0 := w26, w26;
      r := VRound(r, K(26), t0);
      l1 := w[5];
    }
    {
      VFolded(w0, w1, 27);
      VNext(w0, w1, 27);
      var w27 := VAdd(l0, VSmallSigma1(t1));
      w[11], t1 := w27, w27;
      r := VRound(r, K(27), t1);
      l0 := w[6];
    }
    {
      VFolded(w0, w1, 28);
      VNext(w0, w1, 28);
      var w28 := VAdd(l1, VSmallSigma1(t0));
      w[12], t0 := w28, w28;
      r := VRound(r, K(28), t0);
      l1 := w[7];
    }
    {
      VFolded(w0, w1, 29);
      VNext(w0, w1, 29);
      var w29 := VAdd(l0, VSmallSigma1(t1));
      w[13], t1 := w29, w29;
      r := VRound(r, K(29), t1);
    }
  }

  /** The slot of schedule word `k`. */
  function Slot(k: nat): (r: nat)
    ensures r < 16
  {
    k % 16
  }

  /** Sixteen words in a row have sixteen different slots; the seventeenth has the slot of the first. */
  lemma Slots(k: nat, i: nat)
    requires k < i
    ensures k + 16 == i ==> Slot(k) == Slot(i)
    ensures i < k + 16 ==> Slot(k) != Slot(i)
  {
  }

  /** The slots hold the sixteen words before word `i`. */
  ghost predicate Circle(w: seq<V4>, w0: V4, w1: V4, i: nat) {
    && |w| == 16
    && 16 <= i
    && forall k {:trigger Slot(k)} :: i - 16 <= k < i ==> w[Slot(k)] == VW(w0, w1, k)
  }

  lemma CircleStep(w: seq<V4>, w0: V4, w1: V4, i: nat)
    requires Circle(w, w0, w1, i)
    ensures Circle(w[Slot(i) := VW(w0, w1, i)], w0, w1, i + 1)
    ensures w[Slot(i)] == VW(w0, w1, i - 16) && w[Slot(i - 15)] == VW(w0, w1, i - 15) && w[Slot(i - 7)] == VW(w0, w1, i - 7)
  {
    hide VW, Slot;
    forall k | i - 16 <= k < i ensures k + 16 == i ==> Slot(k) == Slot(i) ensures i < k + 16 ==> Slot(k) != Slot(i) {
      Slots(k, i);
    }
    assert w[Slot(i - 16)] == VW(w0, w1, i - 16);
  }

  /** Rounds 32 to 63 over sixteen slots: the new word overwrites the one sixteen places back. */
  method CyclicRounds(w: array<V4>, w0: V4, w1: V4, start: VRegs, before: V4, last: V4) returns (r: VRegs)
    requires w.Length == 16 && start == VState(w0, w1, 32) && before == VW(w0, w1, 30) && last == VW(w0, w1, 31)
    requires forall j :: 0 <= j < 16 ==> w[j] == VW(w0, w1, j + 16)
    modifies w
    ensures r == VState(w0, w1, 64)
  {
    hide VState, VW, VRound, K, VAdd, VSmallSigma0, VSmallSigma1, Circle;
    var t0, t1 := before, last;
    r := start;
    FirstCircle(w[..], w0, w1);
    for i := 32 to 64
      invariant r == VState(w0, w1, i) && t0 == VW(w0, w1, i - 2) && t1 == VW(w0, w1, i - 1)
      invariant Circle(w[..], w0, w1, i)
    {
      VLoopWord(w0, w1, i);
      VNext(w0, w1, i);
      CircleStep(w[..], w0, w1, i);
      var wi16, wi15, wi7, wi2 := w[Slot(i)], w[Slot(i - 15)], w[Slot(i - 7)], t0;
      t0 := t1;
      var wi := VAdd(VAdd(wi16, wi7), VAdd(VSmallSigma0(wi15), VSmallSigma1(wi2)));
      ghost var was := w[..];
      w[Slot(i)], t1 := wi, wi;
      assert w[..] == was[Slot(i) := wi];
      r := VRound(r, K(i), wi);
    }
  }

  lemma FirstCircle(w: seq<V4>, w0: V4, w1: V4)
    requires |w| == 16 && forall j :: 0 <= j < 16 ==> w[j] == VW(w0, w1, j + 16)
    ensures Circle(w, w0, w1, 32)
  {
    hide VW;
    forall k | 16 <= k < 32 ensures Slot(k) + 16 == k {}
  }

  /** Turn four vectors of one variable each into the four variables of one message each. */
  method Transpose(a: V4, b: V4, c: V4, d: V4) returns (m0: V4, m1: V4, m2: V4, m3: V4)
    ensures m0 == V4(a.x0, b.x0, c.x0, d.x0) && m1 == V4(a.x1, b.x1, c.x1, d.x1)
    ensures m2 == V4(a.x2, b.x2, c.x2, d.x2) && m3 == V4(a.x3, b.x3, c.x3, d.x3)
  {
    var tmp0, tmp1, tmp2, tmp3 := UnpackLo(a, b), UnpackHi(a, b), UnpackLo(c, d), UnpackHi(c, d);
    m0 := MoveLh(tmp0, tmp2);
    m1 := MoveHl(tmp2, tmp0);
    m2 := MoveLh(tmp1, tmp3);
    m3 := MoveHl(tmp3, tmp1);
  }

  /** Rounds 32 onwards over a buffer with a slot for every word from 16 on. */
  method LinearRounds(w: array<V4>, w0: V4, w1: V4, start: VRegs, before: V4, last: V4, from: nat, to: nat)
    returns (r: VRegs, t0: V4, t1: V4)
    requires w.Length == 48 && 16 <= from <= to <= 48
    requires start == VState(w0, w1, from + 16) && before == VW(w0, w1, from + 14) && last == VW(w0, w1, from + 15)
    requires forall j :: 0 <= j < from ==> w[j] == VW(w0, w1, j + 16)
    modifies w
    ensures r == VState(w0, w1, to + 16) && t0 == VW(w0, w1, to + 14) && t1 == VW(w0, w1, to + 15)
    ensures forall j :: 0 <= j < to ==> w[j] == VW(w0, w1, j + 16)
  {
    hide VState, VW, VRound, K, VAdd, VSmallSigma0, VSmallSigma1;
    r, t0, t1 := start, before, last;
    for i := from to to
      invariant r == VState(w0, w1, i + 16) && t0 == VW(w0, w1, i + 14) && t1 == VW(w0, w1, i + 15)
      invariant forall j :: 0 <= j < i ==> w[j] == VW(w0, w1, j + 16)
    {
      VLoopWord(w0, w1, i + 16);
      VNext(w0, w1, i + 16);
      var wi16, wi15, wi7, wi2 := w[i - 16], w[i - 15], w[i - 7], t0;
      t0 := t1;
      var wi := VAdd(VAdd(wi16, wi7), VAdd(VSmallSigma0(wi15), VSmallSigma1(wi2)));
      w[i], t1 := wi, wi;
      r := VRound(r, K(i + 16), wi);
    }
  }

  function StoreVector(v: V4): seq<Word> {
    [v.x0, v.x1, v.x2, v.x3]
  }

  /** Store the variables of each message after one another. */
  method StoreDigests(r: VRegs) returns (hash: seq<Word>)
    ensures |hash| == 32
    ensures forall i :: 0 <= i < 4 ==> hash[8 * i..8 * i + 8] == Words(LaneRegs(r, i))
  {
    var a, b, c, d := Transpose(r.a, r.b, r.c, r.d);
    var e, f, g, h := Transpose(r.e, r.f, r.g, r.h);
    hash := StoreVector(a) + StoreVector(e) + StoreVector(b) + StoreVector(f)
          + StoreVector(c) + StoreVector(g) + StoreVector(d) + StoreVector(h);
  }

  /** The digests of four messages, one after the other: sixteen slots for the schedule. */
  method Cyclic(data: seq<Byte>) returns (hash: seq<Word>)
    requires |data| == 32
    ensures |hash| == 32
    ensures forall i :: 0 <= i < 4 ==> hash[8 * i..8 * i + 8] == Digest(data[8 * i..8 * i + 8])
  {
    hide VState, VW, K, Compress, Words;
    var w0, w1 := LoadMessages(data);
    var w := new V4[16](_ => Broadcast(0));
    var r := MessageRounds4(w0, w1);
    var t0, t1;
    r, t0, t1 := FoldedRounds4(w, w0, w1, r);
    r := CyclicRounds(w, w0, w1, r, t0, t1);
    hash := StoreDigests(r);
    forall i | 0 <= i < 4 ensures hash[8 * i..8 * i + 8] == Digest(data[8 * i..8 * i + 8]) {
      LaneDigest(w0, w1, i);
    }
  }

  /** The digests of four messages: a slot for every schedule word. */
  method FullyFused4(data: seq<Byte>) returns (hash: seq<Word>)
    requires |data| == 32
    ensures |hash| == 32
    ensures forall i :: 0 <= i < 4 ==> hash[8 * i..8 * i + 8] == Digest(data[8 * i..8 * i + 8])
  {
    hide VState, VW, K, Compress, Words;
    var w0, w1 := LoadMessages(data);
    var w := new V4[48](_ => Broadcast(0));
    var r := MessageRounds4(w0, w1);
    var t0, t1;
    r, t0, t1 := FoldedRounds4(w, w0, w1, r);
    r, t0, t1 := LinearRounds(w, w0, w1, r, t0, t1, 16, 48);
    hash := StoreDigests(r);
    forall i | 0 <= i < 4 ensures hash[8 * i..8 * i + 8] == Digest(data[8 * i..8 * i + 8]) {
      LaneDigest(w0, w1, i);
    }
  }

  lemma LaneDigest(w0: V4, w1: V4, i: nat)
    requires i < 4
    ensures LaneRegs(VState(w0, w1, 64), i) == Compress(Lane(w0, i), Lane(w1, i))
  {
    hide VState, State;
    VStateLane(w0, w1, 64, i);
  }
}
