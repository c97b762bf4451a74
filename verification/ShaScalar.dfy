/** Three scalar implementations of the compression of an 8-byte message, from the straight one to
    the one with schedule and rounds interleaved and constants folded in. */
module ShaScalar {
  import opened MachineInts
  import opened ShaSpec

  /** The word with the given bytes, most significant byte first. */
  function Join(a: Byte, b: Byte, c: Byte, d: Byte): Word {
    var high: int := a;
    var upper: int := b;
    var lower: int := c;
    ((high * 256 + upper) * 256 + lower) * 256 + d
  }

  /** Four bytes as a word, most significant byte first. */
  function BigEndian(b: seq<Byte>, i: nat): Word
    requires i + 4 <= |b|
  {
    Join(b[i], b[i + 1], b[i + 2], b[i + 3])
  }

  /** Four bytes as a word, least significant byte first: what a load through a word pointer gives. */
  function LittleEndian(b: seq<Byte>, i: nat): Word
    requires i + 4 <= |b|
  {
    Join(b[i + 3], b[i + 2], b[i + 1], b[i])
  }

  lemma FourBytes(b: seq<Byte>)
    requires |b| == 4
    ensures FromMost(b) == Join(b[0], b[1], b[2], b[3])
    ensures FromLeast(b) == Join(b[3], b[2], b[1], b[0])
  {
    var x0: nat, x1: nat, x2: nat, x3: nat := b[0], b[1], b[2], b[3];
    assert b[..3][..2] == b[..2] && b[..2][..1] == b[..1] && b[..1][..0] == [];
    assert FromMost(b[..1]) == x0;
    assert FromMost(b[..2]) == 256 * x0 + x1;
    assert FromMost(b[..3]) == 256 * (256 * x0 + x1) + x2;
    assert b[1..][1..] == b[2..] && b[2..][1..] == b[3..] && b[3..][1..] == [];
    assert FromLeast(b[3..]) == x3;
    assert FromLeast(b[2..]) == x2 + 256 * x3;
    assert FromLeast(b[1..]) == x1 + 256 * (x2 + 256 * x3);
  }

  /** Which numbers the two loads give. */
  lemma LoadsAreNumbers(b: seq<Byte>, i: nat)
    requires i + 4 <= |b|
    ensures BigEndian(b, i) == FromMost(b[i..i + 4])
    ensures LittleEndian(b, i) == FromLeast(b[i..i + 4])
  {
    hide Join;
    FourBytes(b[i..i + 4]);
  }

  function Bswap(x: Word): Word {
    Join(x % 256, x / 256 % 256, x / 256 / 256 % 256, x / 256 / 256 / 256)
  }

  lemma BswapJoin(a: Byte, b: Byte, c: Byte, d: Byte)
    ensures Bswap(Join(a, b, c, d)) == Join(d, c, b, a)
  {
    var x := Join(a, b, c, d);
    var high: int := a;
    assert x % 256 == d && x / 256 == (high * 256 + b) * 256 + c;
    assert x / 256 % 256 == c && x / 256 / 256 == high * 256 + b;
    assert x / 256 / 256 % 256 == b && x / 256 / 256 / 256 == a;
  }

  lemma BswapLoads(b: seq<Byte>, i: nat)
    requires i + 4 <= |b|
    ensures Bswap(LittleEndian(b, i)) == BigEndian(b, i)
  {
    BswapJoin(b[i + 3], b[i + 2], b[i + 1], b[i]);
  }

  lemma BswapTwice(x: Word)
    ensures Bswap(Bswap(x)) == x
  {
    BswapJoin(x % 256, x / 256 % 256, x / 256 / 256 % 256, x / 256 / 256 / 256);
  }

  /** The eight output words. */
  function Words(r: Regs): (s: seq<Word>)
    ensures |s| == 8
  {
    [r.a, r.b, r.c, r.d, r.e, r.f, r.g, r.h]
  }

  /** The words an implementation must produce for message `data`. */
  function Digest(data: seq<Byte>): seq<Word>
    requires |data| == 8
  {
    Words(Compress(BigEndian(data, 0), BigEndian(data, 4)))
  }

  /** The straight implementation: expand the schedule, then rotate the state in place. */
  method Custom(data: seq<Byte>) returns (hash: seq<Word>)
    requires |data| == 8
    ensures hash == Digest(data)
  {
    hide Add, SmallSigma0, SmallSigma1, BigSigma0, BigSigma1, Ch, Maj, KTable;
    ghost var m := Block(BigEndian(data, 0), BigEndian(data, 4));
    var w := new Word[64](_ => 0);
    w[0] := BigEndian(data, 0);
    w[1] := BigEndian(data, 4);
    w[2] := 0x80000000;
    for i := 3 to 15
      invariant w[0] == m[0] && w[1] == m[1] && w[2] == m[2]
      invariant forall j :: 3 <= j < i ==> w[j] == 0
    {
      w[i] := 0;
    }
    w[15] := 64;
    BlockWords(m[0], m[1]);
    assert forall j :: 0 <= j < 16 ==> w[j] == m[j];
    Expand(w, m);
    var s := new Word[8](i requires 0 <= i < 8 => Words(INITIAL)[i]);
    assert s[..] == Words(State(m, 0));
    for i := 0 to 64
      invariant s[..] == Words(State(m, i))
      invariant forall j :: 0 <= j < 64 ==> w[j] == W(m, j)
    {
      RotateRound(s, State(m, i), K(i), w[i]);
      NextState(m, i);
    }
    hash := s[..];
  }

  method Expand(w: array<Word>, ghost m: seq<Word>)
    requires w.Length == 64 && |m| == 16 && forall j :: 0 <= j < 16 ==> w[j] == m[j]
    modifies w
    ensures forall j :: 0 <= j < 64 ==> w[j] == W(m, j)
  {
    hide Add, SmallSigma0, SmallSigma1;
    for i := 16 to 64
      invariant forall j :: 0 <= j < i ==> w[j] == W(m, j)
    {
      w[i] := Add(Add(Add(SmallSigma1(w[i - 2]), w[i - 7]), SmallSigma0(w[i - 15])), w[i - 16]);
      assert w[i] == W(m, i);
    }
  }

  /** One round on the eight state words in place. */
  method RotateRound(s: array<Word>, ghost r: Regs, k: Word, w: Word)
    requires s.Length == 8 && s[..] == Words(r)
    modifies s
    ensures s[..] == Words(Round(r, k, w))
  {
    hide Add, BigSigma0, BigSigma1, Ch, Maj;
    assert forall i :: 0 <= i < 8 ==> s[i] == s[..][i];
    var t1 := Add(Add(Add(Add(s[7], BigSigma1(s[4])), Ch(s[4], s[5], s[6])), k), w);
    var t2 := Add(BigSigma0(s[0]), Maj(s[0], s[1], s[2]));
    s[7] := s[6];
    s[6] := s[5];
    s[5] := s[4];
    s[4] := Add(s[3], t1);
    s[3] := s[2];
    s[2] := s[1];
    s[1] := s[0];
    s[0] := Add(t1, t2);
  }

  /** The words of the message block that every fused implementation starts from. */
  lemma MessageWords(data: seq<Byte>)
    requires |data| == 8
    ensures var m := Block(BigEndian(data, 0), BigEndian(data, 4));
            && m[0] == Bswap(LittleEndian(data, 0)) && m[1] == Bswap(LittleEndian(data, 4))
            && forall t :: 0 <= t < 16 ==> W(m, t) == m[t]
  {
    BswapLoads(data, 0);
    BswapLoads(data, 4);
  }

  /** The first 32 schedule words, with constant terms folded. */
  method FoldSchedule(w: array<Word>, w0: Word, w1: Word)
    requires w.Length == 64
    modifies w
    ensures forall j :: 0 <= j < 32 ==> w[j] == W(Block(w0, w1), j)
  {
    hide Add, SmallSigma0, SmallSigma1, W, Block;
    ghost var m := Block(w0, w1);
    BlockWords(w0, w1);
    forall t | 0 <= t < 32 ensures t < 16 ==> W(m, t) == m[t] { if t < 16 { FirstWords(m, t); } }
    w[0], w[1], w[2] := w0, w1, 0x80000000;
    for i := 3 to 15
      invariant w[0] == w0 && w[1] == w1 && w[2] == 0x80000000 && forall j :: 3 <= j < i ==> w[j] == 0
    {
      w[i] := 0;
    }
    w[15] := 64;
    assert forall j :: 0 <= j < 16 ==> w[j] == W(m, j);
    FoldMiddle(w, w0, w1);
    Folded(w0, w1, 30);
    w[30] := Add(Add(SmallSigma0(64), w[23]), SmallSigma1(w[28]));
    Folded(w0, w1, 31);
    w[31] := Add(Add(Add(64, SmallSigma0(w[16])), w[24]), SmallSigma1(w[29]));
  }

  lemma FirstWords(m: seq<Word>, t: nat)
    requires |m| == 16 && t < 16
    ensures W(m, t) == m[t]
  {
  }

  method FoldMiddle(w: array<Word>, w0: Word, w1: Word)
    requires w.Length == 64 && forall j :: 0 <= j < 16 ==> w[j] == W(Block(w0, w1), j)
    requires w[0] == w0 && w[1] == w1
    modifies w
    ensures forall j :: 0 <= j < 30 ==> w[j] == W(Block(w0, w1), j)
  {
    hide Add, SmallSigma0, SmallSigma1, W, Block;
    Folded(w0, w1, 16);
    w[16] := Add(w[0], SmallSigma0(w[1]));
    Folded(w0, w1, 17);
    w[17] := Add(Add(w[1], SmallSigma0(0x80000000)), SmallSigma1(64));
    Folded(w0, w1, 18);
    w[18] := Add(0x80000000, SmallSigma1(w[16]));
    Folded(w0, w1, 19);
    w[19] := SmallSigma1(w[17]);
    Folded(w0, w1, 20);
    w[20] := SmallSigma1(w[18]);
    Folded(w0, w1, 21);
    w[21] := SmallSigma1(w[19]);
    Folded(w0, w1, 22);
    w[22] := Add(64, SmallSigma1(w[20]));
    FoldRest(w, w0, w1);
  }

  method FoldRest(w: array<Word>, w0: Word, w1: Word)
    requires w.Length == 64 && forall j :: 0 <= j < 23 ==> w[j] == W(Block(w0, w1), j)
    modifies w
    ensures forall j :: 0 <= j < 30 ==> w[j] == W(Block(w0, w1), j)
  {
    hide Add, SmallSigma0, SmallSigma1, W, Block;
    Folded(w0, w1, 23);
    w[23] := Add(w[16], SmallSigma1(w[21]));
    Folded(w0, w1, 24);
    w[24] := Add(w[17], SmallSigma1(w[22]));
    Folded(w0, w1, 25);
    w[25] := Add(w[18], SmallSigma1(w[23]));
    Folded(w0, w1, 26);
    w[26] := Add(w[19], SmallSigma1(w[24]));
    Folded(w0, w1, 27);
    w[27] := Add(w[20], SmallSigma1(w[25]));
    Folded(w0, w1, 28);
    w[28] := Add(w[21], SmallSigma1(w[26]));
    Folded(w0, w1, 29);
    w[29] := Add(w[22], SmallSigma1(w[27]));
  }

  /** The recurrence as the fused loops write it. */
  lemma LoopWord(m: seq<Word>, t: nat)
    requires |m| == 16 && 16 <= t
    ensures W(m, t) == Add(Add(Add(W(m, t - 16), SmallSigma0(W(m, t - 15))), W(m, t - 7)), SmallSigma1(W(m, t - 2)))
  {
    hide Add, SmallSigma0, SmallSigma1;
    AddTurn(SmallSigma1(W(m, t - 2)), W(m, t - 7), SmallSigma0(W(m, t - 15)), W(m, t - 16));
  }

  /** The rounds after the first 32, extending the schedule as they go. */
  method LastRounds(w: array<Word>, ghost m: seq<Word>, start: Regs) returns (r: Regs)
    requires w.Length == 64 && |m| == 16 && forall j :: 0 <= j < 32 ==> w[j] == W(m, j)
    requires start == State(m, 32)
    modifies w
    ensures r == State(m, 64)
  {
    hide Add, SmallSigma0, SmallSigma1, W, Round, State, KTable;
    r := start;
    for i := 32 to 64
      invariant forall j :: 0 <= j < i ==> w[j] == W(m, j)
      invariant r == State(m, i)
    {
      LoopWord(m, i);
      var w0 := Add(Add(Add(w[i - 16], SmallSigma0(w[i - 15])), w[i - 7]), SmallSigma1(w[i - 2]));
      r := Round(r, K(i), w0);
      w[i] := w0;
      NextState(m, i);
    }
  }

  /** The schedule folded first, then one loop of plain rounds and one that extends the schedule. */
  method Fused(data: seq<Byte>) returns (hash: seq<Word>)
    requires |data| == 8
    ensures hash == Digest(data)
  {
    hide Add, SmallSigma0, SmallSigma1, W, Round, State, KTable;
    MessageWords(data);
    var w0, w1 := Bswap(LittleEndian(data, 0)), Bswap(LittleEndian(data, 4));
    ghost var m := Block(w0, w1);
    var w := new Word[64](_ => 0);
    FoldSchedule(w, w0, w1);
    var r := INITIAL;
    StartState(m);
    for i := 0 to 32
      invariant forall j :: 0 <= j < 32 ==> w[j] == W(m, j)
      invariant r == State(m, i)
    {
      r := Round(r, K(i), w[i]);
      NextState(m, i);
    }
    r := LastRounds(w, m, r);
    hash := Words(r);
  }

  lemma StartState(m: seq<Word>)
    requires |m| == 16
    ensures State(m, 0) == INITIAL
  {
  }

  /** A round whose schedule word is zero. */
  function RoundZero(s: Regs, k: Word): Regs {
    var t1 := Add(Add(Add(s.h, BigSigma1(s.e)), Ch(s.e, s.f, s.g)), k);
    var t2 := Add(BigSigma0(s.a), Maj(s.a, s.b, s.c));
    Regs(Add(t1, t2), s.a, s.b, s.c, Add(s.d, t1), s.e, s.f, s.g)
  }

  lemma RoundZeroIsRound(s: Regs, k: Word)
    ensures RoundZero(s, k) == Round(s, k, 0)
  {
    hide Add, BigSigma0, BigSigma1, Ch, Maj;
    AddZero(Add(Add(Add(s.h, BigSigma1(s.e)), Ch(s.e, s.f, s.g)), k));
  }

  /** The first 16 rounds, on the message block itself. */
  method MessageRounds(w: array<Word>, w0: Word, w1: Word) returns (r: Regs)
    requires w.Length == 64
    modifies w
    ensures r == State(Block(w0, w1), 16)
    ensures forall j :: 0 <= j < 16 ==> w[j] == W(Block(w0, w1), j)
    ensures w[0] == w0 && w[1] == w1
  {
    hide Add, W, Round, State, KTable, Block, RoundZero;
    ghost var m := Block(w0, w1);
    BlockWords(w0, w1);
    forall t | 0 <= t < 16 ensures W(m, t) == m[t] { FirstWords(m, t); }
    StartState(m);
    r := Round(INITIAL, K(0), w0);
    w[0] := w0;
    NextState(m, 0);
    r := Round(r, K(1), w1);
    w[1] := w1;
    NextState(m, 1);
    r := Round(r, K(2), 0x80000000);
    w[2] := 0x80000000;
    NextState(m, 2);
    for i := 3 to 15
      invariant w[0] == w0 && w[1] == w1 && w[2] == 0x80000000 && forall j :: 3 <= j < i ==> w[j] == 0
      invariant r == State(m, i)
    {
      w[i] := 0;
      RoundZeroIsRound(r, K(i));
      r := RoundZero(r, K(i));
      NextState(m, i);
    }
    r := Round(r, K(15), 64);
    w[15] := 64;
    NextState(m, 15);
  }

  /** Rounds 16 to 31, each with its folded schedule word; `scra0` and `scra1` carry the last two
      words from round to round. */
  method FoldedRounds(w: array<Word>, w0: Word, w1: Word, start: Regs) returns (r: Regs)
    requires w.Length == 64 && w[0] == w0 && w[1] == w1
    requires start == State(Block(w0, w1), 16) && forall j :: 0 <= j < 16 ==> w[j] == W(Block(w0, w1), j)
    modifies w
    ensures r == State(Block(w0, w1), 32)
    ensures forall j :: 0 <= j < 32 ==> w[j] == W(Block(w0, w1), j)
  {
    hide Add, SmallSigma0, SmallSigma1, W, Round, State, KTable, Block;
    ghost var m := Block(w0, w1);
    r := start;
    var scra0, scra1 := w[0], w[1];
    {
      Folded(w0, w1, 16);
      var w16 := Add(scra0, SmallSigma0(scra1));
      r := Round(r, K(16), w16);
      w[16], scra0 := w16, w16;
      NextState(m, 16);
    }
    {
      Folded(w0, w1, 17);
      var w17 := Add(Add(scra1, SmallSigma0(0x80000000)), SmallSigma1(64));
      r := Round(r, K(17), w17);
      w[17], scra1 := w17, w17;
      NextState(m, 17);
    }
    {
      Folded(w0, w1, 18);
      var w18 := Add(0x80000000, SmallSigma1(scra0));
      r := Round(r, K(18), w18);
      w[18], scra0 := w18, w18;
      NextState(m, 18);
    }
    for i := 19 to 22
      invariant r == State(m, i) && scra0 == w[i - 1] && scra1 == w[i - 2]
      invariant forall j :: 0 <= j < i ==> w[j] == W(m, j)
    {
      Folded(w0, w1, i);
      var wi := SmallSigma1(scra1);
      r := Round(r, K(i), wi);
      w[i] := wi;
      scra1, scra0 := scra0, wi;
      NextState(m, i);
    }
    {
      Folded(w0, w1, 22);
      var w22 := Add(64, SmallSigma1(scra1));
      r := Round(r, K(22), w22);
      w[22] := w22;
      scra1, scra0 := scra0, w22;
      NextState(m, 22);
    }
    for i := 23 to 30
      invariant r == State(m, i) && scra0 == w[i - 1] && scra1 == w[i - 2]
      invariant forall j :: 0 <= j < i ==> w[j] == W(m, j)
    {
      Folded(w0, w1, i);
      var wi := Add(SmallSigma1(scra1), w[i - 7]);
      AddComm(SmallSigma1(scra1), w[i - 7]);
      r := Round(r, K(i), wi);
      w[i] := wi;
      scra1, scra0 := scra0, wi;
      NextState(m, i);
    }
    r := LastFolded(w, w0, w1, r, scra0, scra1);
  }

  /** Rounds 30 and 31. */
  method LastFolded(w: array<Word>, w0: Word, w1: Word, start: Regs, before: Word, beforeThat: Word) returns (r: Regs)
    requires w.Length == 64 && start == State(Block(w0, w1), 30)
    requires forall j :: 0 <= j < 30 ==> w[j] == W(Block(w0, w1), j)
    requires before == w[29] && beforeThat == w[28]
    modifies w
    ensures r == State(Block(w0, w1), 32)
    ensures forall j :: 0 <= j < 32 ==> w[j] == W(Block(w0, w1), j)
  {
    hide Add, SmallSigma0, SmallSigma1, W, Round, State, KTable, Block;
    ghost var m := Block(w0, w1);
    var scra0, scra1 := before, beforeThat;
    {
      Folded(w0, w1, 30);
      var w30 := Add(Add(SmallSigma0(64), SmallSigma1(scra1)), w[23]);
      SwapLast(SmallSigma0(64), SmallSigma1(scra1), w[23]);
      r := Round(start, K(30), w30);
      w[30] := w30;
      scra1, scra0 := scra0, w30;
      NextState(m, 30);
    }
    {
      Folded(w0, w1, 31);
      var w31 := Add(Add(Add(64, SmallSigma1(scra1)), SmallSigma0(w[16])), w[24]);
      SwapLast(64, SmallSigma1(scra1), SmallSigma0(w[16]));
      SwapLast(Add(64, SmallSigma0(w[16])), SmallSigma1(scra1), w[24]);
      r := Round(r, K(31), w31);
      w[31] := w31;
      NextState(m, 31);
    }
  }

  lemma SwapLast(x: Word, y: Word, z: Word)
    ensures Add(Add(x, y), z) == Add(Add(x, z), y)
  {
    hide Add;
    AddAssoc(x, y, z);
    AddAssoc(x, z, y);
    AddComm(y, z);
  }

  /** Schedule and rounds in one sweep. */
  method FullyFused(data: seq<Byte>) returns (hash: seq<Word>)
    requires |data| == 8
    ensures hash == Digest(data)
  {
    hide Add, SmallSigma0, SmallSigma1, W, Round, State, KTable;
    MessageWords(data);
    var w0, w1 := Bswap(LittleEndian(data, 0)), Bswap(LittleEndian(data, 4));
    var w := new Word[64](_ => 0);
    var r := MessageRounds(w, w0, w1);
    r := FoldedRounds(w, w0, w1, r);
    r := LastRounds(w, Block(w0, w1), r);
    hash := Words(r);
  }

  // ------------------------------------------------------------------
  // Normalising a standard digest
  // ------------------------------------------------------------------

  /** The standard digest of the message, as words loaded from its bytes: the final addition of the
      initial value, stored most significant byte first. */
  function StandardDigest(data: seq<Byte>): (r: seq<Word>)
    requires |data| == 8
    ensures |r| == 8
  {
    seq<Word>(8, i requires 0 <= i < 8 => Bswap(Add(Words(INITIAL)[i], Digest(data)[i])))
  }

  /** Swap the bytes of every word and take the initial value off again. */
  method Normalize(hash: array<Word>)
    requires hash.Length == 8
    modifies hash
    ensures forall i :: 0 <= i < 8 ==> hash[i] == Sub(Bswap(old(hash[i])), Words(INITIAL)[i])
  {
    hide Sub, Bswap;
    for i := 0 to 8
      invariant forall j :: 0 <= j < i ==> hash[j] == Sub(Bswap(old(hash[j])), Words(INITIAL)[j])
      invariant forall j :: i <= j < 8 ==> hash[j] == old(hash[j])
    {
      hash[i] := Sub(Bswap(hash[i]), Words(INITIAL)[i]);
    }
  }

  /** Normalising maps the standard digest of a message to the words the implementations leave. */
  lemma NormalizedIsDigest(data: seq<Byte>, i: nat)
    requires |data| == 8 && i < 8
    ensures Sub(Bswap(StandardDigest(data)[i]), Words(INITIAL)[i]) == Digest(data)[i]
  {
    hide Add, Sub, Bswap, Compress;
    BswapTwice(Add(Words(INITIAL)[i], Digest(data)[i]));
    SubAdd(Words(INITIAL)[i], Digest(data)[i]);
  }
}
