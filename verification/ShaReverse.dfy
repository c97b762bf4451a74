/** The searches that invert the compression over a range of 8-byte values: one value at a time,
    four at a time, and four at a time with most values given up after round 56. */
module ShaReverse {
  import opened MachineInts
  import opened ShaSpec
  import opened ShaScalar
  import opened ShaVector
  import opened ShaFour

  // ------------------------------------------------------------------
  // Undoing rounds of the target
  // ------------------------------------------------------------------

  /** What a round did to register d, from the state after it alone. */
  function UndoneD(a: Word, b: Word, c: Word, d: Word, e: Word): Word {
    Sub(e, Sub(a, Add(BigSigma0(b), Maj(b, c, d))))
  }

  lemma SubSub(d: Word, t1: Word, t2: Word)
    ensures Sub(Add(d, t1), Sub(Add(t1, t2), t2)) == d
  {
    SubAdd(t1, t2);
    SubAdd(d, t1);
  }

  lemma UndoRound(s: Regs, k: Word, w: Word)
    ensures var t := Round(s, k, w);
            && UndoneD(t.a, t.b, t.c, t.d, t.e) == s.d
            && t.b == s.a && t.c == s.b && t.d == s.c && t.f == s.e && t.g == s.f && t.h == s.g
  {
    hide Add, Sub, BigSigma0, BigSigma1, Ch, Maj;
    var t1 := Add(Add(Add(Add(s.h, BigSigma1(s.e)), Ch(s.e, s.f, s.g)), k), w);
    SubSub(s.d, t1, Add(BigSigma0(s.a), Maj(s.a, s.b, s.c)));
  }

  /** Register d after round 59, from the target alone: four rounds undone. */
  function Undone4(target: seq<Word>): Word
    requires |target| == 8
  {
    var d63 := UndoneD(target[0], target[1], target[2], target[3], target[4]);
    var d62 := UndoneD(target[1], target[2], target[3], d63, target[5]);
    var d61 := UndoneD(target[2], target[3], d63, d62, target[6]);
    UndoneD(target[3], d63, d62, d61, target[7])
  }

  /** A message that reaches the target has, after round 56, exactly the register that the target
      alone determines. */
  lemma EarlyRejectSound(m: seq<Word>)
    requires |m| == 16
    ensures State(m, 57).a == Undone4(Words(State(m, 64)))
  {
    hide State, Round, UndoneD, W, K;
    forall t | 57 <= t < 64
      ensures var s := State(m, t);
              var n := State(m, t + 1);
              && UndoneD(n.a, n.b, n.c, n.d, n.e) == s.d
              && n.b == s.a && n.c == s.b && n.d == s.c && n.f == s.e && n.g == s.f && n.h == s.g
    {
      NextState(m, t);
      UndoRound(State(m, t), K(t), W(m, t));
    }
    var s57, s58, s59, s60 := State(m, 57), State(m, 57 + 1), State(m, 58 + 1), State(m, 59 + 1);
    var s61, s62, s63, s64 := State(m, 60 + 1), State(m, 61 + 1), State(m, 62 + 1), State(m, 63 + 1);
    assert s57.a == s58.b == s59.c == s60.d;
  }

  // ------------------------------------------------------------------
  // Values and the order in which four-at-a-time searches try them
  // ------------------------------------------------------------------

  type Value = U64

  /** The value in memory, least significant byte first. */
  function Bytes(v: Value): (s: seq<Byte>)
    ensures |s| == 8
  {
    [v % 256, v / 0x100 % 256, v / 0x1_0000 % 256, v / 0x100_0000 % 256, v / 0x1_0000_0000 % 256,
     v / 0x100_0000_0000 % 256, v / 0x1_0000_0000_0000 % 256, v / 0x100_0000_0000_0000 % 256]
  }

  /** The bytes are the digits of the value. */
  lemma BytesAreDigits(v: Value)
    ensures FromLeast(Bytes(v)) == v
  {
    hide Bytes;
    var b := Bytes(v);
    EightBytes(b);
    HalvesLoaded(v);
    LoadsAreNumbers(b, 0);
    LoadsAreNumbers(b, 4);
  }

  lemma EightBytes(b: seq<Byte>)
    requires |b| == 8
    ensures FromLeast(b) == FromLeast(b[0..4]) + MODULUS * FromLeast(b[4..8])
  {
    var high := FromLeast(b[4..]);
    FourBytes(b[0..4]);
    assert b[4..] == b[4..8] && b[1..][1..] == b[2..] && b[2..][1..] == b[3..] && b[3..][1..] == b[4..];
    assert FromLeast(b[3..]) == b[3] + 256 * high;
    assert FromLeast(b[2..]) == b[2] + 256 * (b[3] + 256 * high);
    assert FromLeast(b[1..]) == b[1] + 256 * (b[2] + 256 * (b[3] + 256 * high));
  }

  /** A load through a word pointer gives the halves of the value, the low one first. */
  lemma HalvesLoaded(v: Value)
    ensures LittleEndian(Bytes(v), 0) == v % MODULUS && LittleEndian(Bytes(v), 4) == v / MODULUS
  {
    FourDigits(v % MODULUS);
    FourDigits(v / MODULUS);
    LowDigits(v);
  }

  lemma FourDigits(x: Word)
    ensures Join(x / 0x100_0000, x / 0x1_0000 % 256, x / 0x100 % 256, x % 256) == x
  {
    var y := x / 0x100;
    var z := y / 0x100;
    assert x / 0x1_0000 == z && x / 0x100_0000 == z / 0x100;
  }

  // The digits of a number are those of its halves.

  lemma Shifted(x: nat, d: nat, k: nat)
    requires 0 < d
    ensures (x + d * k) / d == x / d + k && (x + d * k) % d == x % d
  {
    var q, r := x / d, x % d;
    assert x == d * q + r;
    assert d * (q + k) == d * q + d * k;
    QuotientOf(x + d * k, d, q + k, r);
  }

  lemma LowDigit1(x: Word, y: nat)
    ensures (x + MODULUS * y) / 0x100 % 256 == x / 0x100 % 256
  {
    Shifted(x, 0x100, 0x100_0000 * y);
    Shifted(x / 0x100, 256, 0x1_0000 * y);
  }

  lemma LowDigit2(x: Word, y: nat)
    ensures (x + MODULUS * y) / 0x1_0000 % 256 == x / 0x1_0000 % 256
  {
    Shifted(x, 0x1_0000, 0x1_0000 * y);
    Shifted(x / 0x1_0000, 256, 0x100 * y);
  }

  lemma LowDigit3(x: Word, y: nat)
    ensures (x + MODULUS * y) / 0x100_0000 % 256 == x / 0x100_0000
  {
    Shifted(x, 0x100_0000, 0x100 * y);
    Shifted(x / 0x100_0000, 256, y);
  }

  lemma HighDigits(x: Word, y: Word)
    ensures var v := x + MODULUS * y;
            && v / 0x100_0000_0000 == y / 0x100 && v / 0x1_0000_0000_0000 == y / 0x1_0000
            && v / 0x100_0000_0000_0000 == y / 0x100_0000
  {
  }

  lemma LowDigits(v: Value)
    ensures var x := v % MODULUS;
            && v % 256 == x % 256 && v / 0x100 % 256 == x / 0x100 % 256
            && v / 0x1_0000 % 256 == x / 0x1_0000 % 256 && v / 0x100_0000 % 256 == x / 0x100_0000
    ensures var y := v / MODULUS;
            && v / 0x100_0000_0000 % 256 == y / 0x100 % 256
            && v / 0x1_0000_0000_0000 % 256 == y / 0x1_0000 % 256 && v / 0x100_0000_0000_0000 % 256 == y / 0x100_0000
  {
    var x, y := v % MODULUS, v / MODULUS;
    assert v == x + MODULUS * y;
    LowDigit1(x, y);
    LowDigit2(x, y);
    LowDigit3(x, y);
    HighDigits(x, y);
  }

  /** So the schedule starts from the halves of the value with their bytes swapped. */
  lemma HalvesSwapped(v: Value)
    ensures BigEndian(Bytes(v), 0) == Bswap(v % MODULUS) && BigEndian(Bytes(v), 4) == Bswap(v / MODULUS)
  {
    hide Bswap, Bytes, Join;
    HalvesLoaded(v);
    BswapLoads(Bytes(v), 0);
    BswapLoads(Bytes(v), 4);
  }

  predicate Matches(v: Value, target: seq<Word>) {
    Digest(Bytes(v)) == target
  }

  /** Addition of a small number, wrapping. */
  function Plus(v: Value, n: nat): Value {
    (v + n) % LIMIT
  }

  /** The bound is below the last batch start there is: only then the guard can fail. */
  predicate Stops(start: Value, end: Value) {
    end < LIMIT - 4 + start % 4
  }

  lemma AddFours(x: int, k: int)
    ensures (x + 4 * k) % 4 == x % 4
  {
  }

  lemma PlusPlain(v: Value, n: nat)
    ensures v + n < LIMIT ==> Plus(v, n) == v + n
    ensures LIMIT <= v + n < 2 * LIMIT ==> Plus(v, n) == v + n - LIMIT
  {
  }

  /** Batches start at values that agree modulo four. */
  lemma PlusKeepsMod4(v: Value, n: nat)
    ensures Plus(v, 4 * n) % 4 == v % 4
  {
    var q := (v + 4 * n) / LIMIT;
    AddFours(v, n - q * 0x4000_0000_0000_0000);
  }

  /** Where batch `n` starts. */
  function BatchStart(start: Value, n: nat): Value {
    Plus(start, 4 * n)
  }

  /** The value in lane `i` of batch `n`. */
  function InLane(start: Value, n: nat, i: nat): Value {
    Plus(start, 4 * n + i)
  }

  /** The guard of the batch loop fails at some batch after the first if and only if the bound is not
      among the last values of all. */
  lemma {:induction false} StopsExactly(start: Value, end: Value)
    ensures Stops(start, end) <==> exists n :: 1 <= n && end < BatchStart(start, n)
  {
    hide Plus;
    var last := LIMIT - 4 + start % 4;
    forall n: nat ensures BatchStart(start, n) <= last {
      PlusKeepsMod4(start, n);
      HighestWithMod4(BatchStart(start, n));
    }
    if Stops(start, end) {
      HighestWithMod4(start);
      var n := if last == start then 0x4000_0000_0000_0000 else (last - start) / 4;
      assert last - start == 4 * ((last - start) / 4);
      assert 4 * n == if last == start then LIMIT else last - start;
      PlusPlain(start, 4 * n);
      assert BatchStart(start, n) == last;
    }
  }

  /** A search of everything: its guard never fails. */
  lemma GuardNeverFails(n: nat)
    ensures !Stops(0, LIMIT - 4) && BatchStart(0, n) <= LIMIT - 4
  {
    StopsExactly(0, LIMIT - 4);
    PlusKeepsMod4(0, n);
    HighestWithMod4(BatchStart(0, n));
  }

  lemma HighestWithMod4(v: Value)
    ensures v <= LIMIT - 4 + v % 4
  {
  }

  lemma BelowHighest(v: Value)
    requires v < LIMIT - 4 + v % 4
    ensures v + 4 < LIMIT
  {
  }

  /** Value number `k` of the order in which values are tried is the first that reaches the target. */
  ghost predicate FirstHit(start: Value, target: seq<Word>, k: nat) {
    Matches(Plus(start, k), target) && forall j: nat {:trigger Plus(start, j)} :: j < k ==> !Matches(Plus(start, j), target)
  }

  /** If anything matches, there is a first hit. */
  lemma {:induction false} SomeFirstHit(start: Value, target: seq<Word>, k: nat) returns (j: nat)
    requires Matches(Plus(start, k), target)
    ensures j <= k && FirstHit(start, target, j)
  {
    hide Matches, Plus;
    if i: nat :| i < k && Matches(Plus(start, i), target) {
      j := SomeFirstHit(start, target, i);
    } else {
      j := k;
    }
  }

  lemma OneFirstHit(start: Value, target: seq<Word>, j: nat, k: nat)
    requires FirstHit(start, target, j) && FirstHit(start, target, k)
    ensures j == k
  {
    hide Matches, Plus;
    assert j < k ==> !Matches(Plus(start, j), target);
    assert k < j ==> !Matches(Plus(start, k), target);
  }

  /** Every value has a number in the order. */
  lemma NumberOf(start: Value, v: Value) returns (k: nat)
    ensures Plus(start, k) == v && k < LIMIT
  {
    k := if start <= v then v - start else v + LIMIT - start;
    PlusPlain(start, k);
  }

  /** A four-at-a-time search gets to value number `k`, if nothing matches before it: the guard holds
      before every batch up to the value's own, but for the first. */
  ghost predicate Tried4(start: Value, end: Value, k: nat) {
    forall n :: 1 <= n <= k / 4 ==> BatchStart(start, n) <= end
  }

  /** A search of one value at a time does: the guard holds for every value up to it. */
  ghost predicate Tried1(start: Value, end: Value, k: nat) {
    forall j: nat {:trigger Plus(start, j)} :: j <= k ==> Plus(start, j) <= end
  }

  /** What a four-at-a-time search returns: the first hit if it gets there, and zero if not. */
  ghost predicate Returns4(start: Value, end: Value, target: seq<Word>, r: Value) {
    if exists k :: FirstHit(start, target, k) && Tried4(start, end, k)
    then exists k :: FirstHit(start, target, k) && Tried4(start, end, k) && r == Plus(start, k)
    else r == 0
  }

  ghost predicate Returns1(start: Value, end: Value, target: seq<Word>, r: Value) {
    if exists k :: FirstHit(start, target, k) && Tried1(start, end, k)
    then exists k :: FirstHit(start, target, k) && Tried1(start, end, k) && r == Plus(start, k)
    else r == 0
  }

  /** There is one result. */
  lemma ReturnsOne(start: Value, end: Value, target: seq<Word>, r: Value, q: Value)
    ensures Returns4(start, end, target, r) && Returns4(start, end, target, q) ==> r == q
    ensures Returns1(start, end, target, r) && Returns1(start, end, target, q) ==> r == q
  {
    hide FirstHit, Tried4, Tried1, Plus;
    forall j, k | FirstHit(start, target, j) && FirstHit(start, target, k) ensures j == k {
      OneFirstHit(start, target, j, k);
    }
  }

  // When the searches end

  /** Some value of batch `n` matches. */
  ghost predicate BatchHits(start: Value, target: seq<Word>, n: nat) {
    exists i: nat :: i < 4 && Matches(InLane(start, n, i), target)
  }

  /** The loop is left at batch `n`: it holds a match, or the guard fails after it. */
  ghost predicate LeavesAt4(start: Value, end: Value, target: seq<Word>, n: nat) {
    BatchHits(start, target, n) || end < BatchStart(start, n + 1)
  }

  /** Batch `n` is the last: the loop is not left at any before it. */
  ghost predicate EndsAt4(start: Value, end: Value, target: seq<Word>, n: nat) {
    LeavesAt4(start, end, target, n) && forall m: nat :: m < n ==> !LeavesAt4(start, end, target, m)
  }

  ghost predicate Halts4(start: Value, end: Value, target: seq<Word>) {
    Stops(start, end) || exists v: Value :: Matches(v, target)
  }

  lemma {:induction false} FirstEnd4(start: Value, end: Value, target: seq<Word>, n: nat) returns (m: nat)
    requires LeavesAt4(start, end, target, n)
    ensures EndsAt4(start, end, target, m)
  {
    hide LeavesAt4;
    if i: nat :| i < n && LeavesAt4(start, end, target, i) {
      m := FirstEnd4(start, end, target, i);
    } else {
      m := n;
    }
  }

  lemma NumberInBatch(start: Value, target: seq<Word>, k: nat)
    requires Matches(Plus(start, k), target)
    ensures BatchHits(start, target, k / 4)
  {
    hide Matches, Plus;
    assert InLane(start, k / 4, k % 4) == Plus(start, k);
  }

  /** A four-at-a-time search ends if and only if its guard fails at some batch or some value at all
      reaches the target: without a failing guard it goes through every value. */
  lemma HaltsExactly4(start: Value, end: Value, target: seq<Word>)
    ensures Halts4(start, end, target) <==> exists n :: EndsAt4(start, end, target, n)
  {
    hide Matches, BatchStart, Stops, Plus;
    StopsExactly(start, end);
    if v: Value :| Matches(v, target) {
      var k := NumberOf(start, v);
      NumberInBatch(start, target, k);
      var m := FirstEnd4(start, end, target, k / 4);
    } else if n :| 1 <= n && end < BatchStart(start, n) {
      var m := FirstEnd4(start, end, target, n - 1);
    } else {
      forall n: nat ensures !EndsAt4(start, end, target, n) {
        var m := n + 1;
        assert BatchStart(start, m) <= end;
      }
    }
  }

  /** Value `k` is the last looked at. */
  ghost predicate EndsAt1(start: Value, end: Value, target: seq<Word>, k: nat) {
    && (forall j: nat {:trigger Plus(start, j)} :: j < k ==> !Matches(Plus(start, j), target) && Plus(start, j) <= end)
    && (Matches(Plus(start, k), target) || end < Plus(start, k))
  }

  ghost predicate Halts1(start: Value, end: Value, target: seq<Word>) {
    end < LIMIT - 1 || exists v: Value :: Matches(v, target)
  }

  lemma {:induction false} FirstEnd1(start: Value, end: Value, target: seq<Word>, k: nat) returns (j: nat)
    requires Matches(Plus(start, k), target) || end < Plus(start, k)
    ensures EndsAt1(start, end, target, j)
  {
    hide Matches, Plus;
    if i: nat :| i < k && (Matches(Plus(start, i), target) || end < Plus(start, i)) {
      j := FirstEnd1(start, end, target, i);
    } else {
      j := k;
    }
  }

  /** A search of one value at a time ends if and only if its bound is not the largest value or some
      value at all reaches the target. */
  lemma HaltsExactly1(start: Value, end: Value, target: seq<Word>)
    ensures Halts1(start, end, target) <==> exists k :: EndsAt1(start, end, target, k)
  {
    hide Matches, Plus;
    if v: Value :| Matches(v, target) {
      var k := NumberOf(start, v);
      var j := FirstEnd1(start, end, target, k);
    } else if end < LIMIT - 1 {
      var k := NumberOf(start, LIMIT - 1);
      var j := FirstEnd1(start, end, target, k);
    } else {
      forall k: nat ensures !EndsAt1(start, end, target, k) {
        assert Plus(start, k) <= end;
      }
    }
  }

  // What the searches find

  /** Every value of the range is tried, and at most three past it when the guard can fail. */
  lemma TriedCovers(start: Value, end: Value, k: nat)
    requires start <= end
    ensures k <= end - start ==> Tried4(start, end, k) && Tried1(start, end, k) && Plus(start, k) == start + k
    ensures Stops(start, end) && Tried4(start, end, k) ==> start + k <= end + 3 && Plus(start, k) == start + k
  {
    hide Plus, Stops;
    if k <= end - start {
      forall n | 0 <= n <= k ensures Plus(start, n) == start + n {
        PlusPlain(start, n);
      }
    }
    if Stops(start, end) && Tried4(start, end, k) {
      TriedPlain(start, end, k / 4);
      InRange(start + 4 * (k / 4), start, end);
      PlusPlain(start, k);
    }
  }

  /** Batches inside the bound start where they would without wrapping. */
  lemma {:induction false} TriedPlain(start: Value, end: Value, n: nat)
    requires Stops(start, end) && start <= end && forall m :: 1 <= m <= n ==> BatchStart(start, m) <= end
    ensures start + 4 * n <= end
  {
    hide Plus, Stops;
    if n > 0 {
      TriedPlain(start, end, n - 1);
      InRange(start + 4 * (n - 1), start, end);
      PlusPlain(start, 4 * n);
      assert BatchStart(start, n) <= end;
    }
  }

  lemma InRange(v: Value, start: Value, end: Value)
    requires v <= end && Stops(start, end) && v % 4 == start % 4
    ensures v + 4 < LIMIT
  {
    BelowHighest(v);
  }

  /** `r` is the least value in the range that reaches the target. */
  ghost predicate LeastMatch(start: Value, end: Value, target: seq<Word>, r: Value) {
    && start <= r <= end
    && Matches(r, target)
    && forall v: Value :: start <= v < r ==> !Matches(v, target)
  }

  /** If some value in the range reaches the target, every search returns the least one: the searches
      agree. */
  lemma FindsLeast(start: Value, end: Value, target: seq<Word>, least: Value, r: Value)
    requires LeastMatch(start, end, target, least)
    requires Returns4(start, end, target, r) || Returns1(start, end, target, r)
    ensures r == least
  {
    hide Matches, Plus, Tried4, Tried1;
    var k := least - start;
    TriedCovers(start, end, k);
    forall j: nat | j < k ensures Plus(start, j) == start + j {
      TriedCovers(start, end, j);
    }
    assert FirstHit(start, target, k);
    forall j: nat | FirstHit(start, target, j) ensures j == k {
      OneFirstHit(start, target, j, k);
    }
  }

  /** Any result other than zero reaches the target, and lies at most three past the range when the
      guard can fail; one value at a time it lies in the range. */
  lemma OnlyMatches(start: Value, end: Value, target: seq<Word>, r: Value)
    requires r != 0
    ensures Returns4(start, end, target, r) ==> Matches(r, target) && (start <= end && Stops(start, end) ==> start <= r <= end + 3)
    ensures Returns1(start, end, target, r) ==> Matches(r, target) && r <= end
  {
    hide Matches, Plus, Stops, Tried4;
    if start <= end {
      forall k: nat | Tried4(start, end, k) && Stops(start, end) ensures start <= Plus(start, k) <= end + 3 {
        TriedCovers(start, end, k);
      }
    }
  }

  /** If value number `k` matches, zero is tried no later and matches too. */
  ghost predicate NoneBeforeZero(start: Value, target: seq<Word>, k: nat) {
    Matches(Plus(start, k), target) ==> exists j: nat {:trigger Plus(start, j)} :: j <= k && Plus(start, j) == 0 && Matches(0, target)
  }

  /** Zero is returned exactly when no match is tried before zero itself matches: for "nothing found" and
      for a match at zero alike, whichever way is searched. */
  lemma ZeroIsAmbiguous(start: Value, end: Value, target: seq<Word>, r: Value)
    ensures Returns4(start, end, target, r) ==> (r == 0 <==> forall k :: Tried4(start, end, k) ==> NoneBeforeZero(start, target, k))
    ensures Returns1(start, end, target, r) ==> (r == 0 <==> forall k :: Tried1(start, end, k) ==> NoneBeforeZero(start, target, k))
  {
    hide Matches, Plus;
    forall k | Matches(Plus(start, k), target)
      ensures exists j: nat :: j <= k && FirstHit(start, target, j) && (Tried4(start, end, k) ==> Tried4(start, end, j))
                               && (Tried1(start, end, k) ==> Tried1(start, end, j))
    {
      var j := SomeFirstHit(start, target, k);
    }
    if k :| FirstHit(start, target, k) {
      forall j: nat | FirstHit(start, target, j) ensures j == k {
        OneFirstHit(start, target, j, k);
      }
    }
  }

  // ------------------------------------------------------------------
  // The searches
  // ------------------------------------------------------------------

  /** One value at a time; the loop variable wraps. */
  method Reverse(start: Value, end: Value, target: seq<Word>) returns (r: Value)
    requires |target| == 8 && Halts1(start, end, target)
    ensures Returns1(start, end, target, r)
  {
    hide Digest, Plus;
    HaltsExactly1(start, end, target);
    ghost var last: nat :| EndsAt1(start, end, target, last);
    var i: Value := start;
    ghost var k: nat := 0;
    FirstNumber(start);
    while i <= end
      invariant i == Plus(start, k) && k <= last
      invariant forall j: nat {:trigger Plus(start, j)} :: j < k ==> !Matches(Plus(start, j), target) && Plus(start, j) <= end
      decreases last - k
    {
      var out := FullyFused(Bytes(i));
      if out == target {
        assert Matches(i, target);
        assert FirstHit(start, target, k) && Tried1(start, end, k);
        HitReturns(start, end, target, k);
        return i;
      }
      assert !Matches(Plus(start, k), target);
      PlusPlus(start, k, 1);
      i := Plus(i, 1);
      k := k + 1;
    }
    NoHit1(start, end, target, k);
    return 0;
  }

  lemma FirstNumber(start: Value)
    ensures Plus(start, 0) == start && BatchStart(start, 0) == start
  {
  }

  lemma HitReturns(start: Value, end: Value, target: seq<Word>, k: nat)
    requires FirstHit(start, target, k)
    ensures Tried1(start, end, k) ==> Returns1(start, end, target, Plus(start, k))
    ensures Tried4(start, end, k) ==> Returns4(start, end, target, Plus(start, k))
  {
    hide FirstHit, Tried1, Tried4, Plus;
  }

  lemma NoHit1(start: Value, end: Value, target: seq<Word>, k: nat)
    requires end < Plus(start, k) && forall j: nat {:trigger Plus(start, j)} :: j < k ==> !Matches(Plus(start, j), target)
    ensures Returns1(start, end, target, 0)
  {
    hide Matches, Plus;
    forall j: nat | FirstHit(start, target, j) ensures !Tried1(start, end, j) {
      assert Plus(start, k) > end;
    }
  }

  /** Four values side by side in memory. */
  function Batch(data: seq<Value>): (s: seq<Byte>)
    requires |data| == 4
    ensures |s| == 32
    ensures forall i :: 0 <= i < 4 ==> s[8 * i..8 * i + 8] == Bytes(data[i])
  {
    var s := Bytes(data[0]) + Bytes(data[1]) + Bytes(data[2]) + Bytes(data[3]);
    assert s[0..8] == Bytes(data[0]) && s[8..16] == Bytes(data[1]) && s[16..24] == Bytes(data[2]) && s[24..32] == Bytes(data[3]);
    s
  }

  /** The batch that starts at `base`. */
  ghost predicate BatchAt(data: seq<Value>, base: Value) {
    data == [base, Plus(base, 1), Plus(base, 2), Plus(base, 3)]
  }

  lemma PlusPlus(v: Value, i: nat, n: nat)
    ensures Plus(Plus(v, i), n) == Plus(v, i + n) == Plus(Plus(v, n), i)
  {
    hide Plus;
    PlusTwice(v, i, n);
    PlusTwice(v, n, i);
  }

  lemma PlusTwice(v: Value, i: nat, n: nat)
    ensures Plus(Plus(v, i), n) == Plus(v, i + n)
  {
    var q := (v + i) / LIMIT;
    assert v + i + n == (v + i) % LIMIT + n + LIMIT * q;
    Shifted((v + i) % LIMIT + n, LIMIT, q);
  }

  /** Before batch `n`: nothing matched, the guard held, and the batch is at hand. */
  ghost predicate Before4(data: seq<Value>, start: Value, end: Value, target: seq<Word>, n: nat) {
    && |data| == 4
    && (forall i: nat :: i < 4 ==> data[i] == InLane(start, n, i))
    && (forall k: nat {:trigger Plus(start, k)} :: k < 4 * n ==> !Matches(Plus(start, k), target))
    && (forall m :: 1 <= m <= n ==> BatchStart(start, m) <= end)
  }

  lemma BatchNumbers(data: seq<Value>, start: Value, n: nat)
    requires BatchAt(data, BatchStart(start, n))
    ensures forall i: nat :: i < 4 ==> data[i] == InLane(start, n, i)
  {
    hide Plus;
    forall i: nat | i < 4 ensures Plus(BatchStart(start, n), i) == InLane(start, n, i) {
      PlusPlus(start, 4 * n, i);
    }
    assert InLane(start, n, 0) == BatchStart(start, n);
  }

  /** A batch without a match, and what comes after it. */
  lemma NextBatch(data: seq<Value>, start: Value, end: Value, target: seq<Word>, n: nat, last: nat)
    requires Before4(data, start, end, target, n) && n <= last && EndsAt4(start, end, target, last)
    requires forall i :: 0 <= i < 4 ==> !Matches(data[i], target)
    ensures forall k: nat {:trigger Plus(start, k)} :: k < 4 * (n + 1) ==> !Matches(Plus(start, k), target)
    ensures BatchStart(start, n + 1) <= end ==> n < last
    ensures end < BatchStart(start, n + 1) ==> Returns4(start, end, target, 0)
  {
    hide Matches, Plus;
    forall k: nat | k < 4 * (n + 1) ensures !Matches(Plus(start, k), target) {
      if 4 * n <= k {
        assert InLane(start, n, k - 4 * n) == Plus(start, k);
      }
    }
    forall i: nat | i < 4 ensures !Matches(InLane(start, n, i), target) {}
    assert !BatchHits(start, target, n);
    if end < BatchStart(start, n + 1) {
      forall k: nat | FirstHit(start, target, k) ensures !Tried4(start, end, k) {
        assert k >= 4 * (n + 1);
        assert n + 1 <= k / 4;
      }
    }
  }

  /** The result when lane `i` holds the first match of a batch. */
  lemma HitInBatch(data: seq<Value>, start: Value, end: Value, target: seq<Word>, n: nat, i: nat)
    requires Before4(data, start, end, target, n)
    requires i < 4 && Matches(data[i], target) && forall j :: 0 <= j < i ==> !Matches(data[j], target)
    ensures Returns4(start, end, target, data[i])
  {
    hide Matches, Plus;
    var k := 4 * n + i;
    assert InLane(start, n, i) == Plus(start, k);
    forall j: nat | j < k ensures !Matches(Plus(start, j), target) {
      if 4 * n <= j {
        assert InLane(start, n, j - 4 * n) == Plus(start, j);
      }
    }
    assert k / 4 == n;
    HitReturns(start, end, target, k);
  }

  /** Advance every value of the batch. */
  method Advance(data: array<Value>, ghost start: Value, ghost n: nat)
    requires data.Length == 4 && BatchAt(data[..], BatchStart(start, n))
    modifies data
    ensures BatchAt(data[..], BatchStart(start, n + 1))
  {
    hide Plus;
    ghost var base := BatchStart(start, n);
    assert forall i :: 0 <= i < 4 ==> data[..][i] == data[i];
    forall i: nat ensures Plus(Plus(base, i), 4) == Plus(Plus(base, 4), i) {
      PlusPlus(base, i, 4);
    }
    PlusPlus(start, 4 * n, 4);
    assert 4 * n + 4 == 4 * (n + 1);
    data[0] := Plus(data[0], 4);
    data[1] := Plus(data[1], 4);
    data[2] := Plus(data[2], 4);
    data[3] := Plus(data[3], 4);
  }

  /** Four values at a time, with full digests. */
  method ReverseX4(start: Value, end: Value, target: seq<Word>) returns (r: Value)
    requires |target| == 8 && Halts4(start, end, target)
    ensures Returns4(start, end, target, r)
  {
    hide Digest, Plus, Bytes, Stops, Returns4, EndsAt4, BatchStart, Halts4, Before4;
    HaltsExactly4(start, end, target);
    ghost var last: nat :| EndsAt4(start, end, target, last);
    var data := new Value[4](i requires 0 <= i < 4 => Plus(start, i));
    ghost var n: nat := 0;
    FirstNumber(start);
    assert data[..] == [Plus(start, 0), Plus(start, 1), Plus(start, 2), Plus(start, 3)];
    StartsBefore(data[..], start, end, target);
    while true
      invariant n <= last && BatchAt(data[..], BatchStart(start, n)) && Before4(data[..], start, end, target, n)
      decreases last - n
    {
      var out := FullyFused4(Batch(data[..]));
      for i := 0 to 4
        invariant forall j :: 0 <= j < i ==> !Matches(data[j], target)
      {
        if out[8 * i..8 * i + 8] == target {
          HitInBatch(data[..], start, end, target, n, i);
          return data[i];
        }
      }
      NextBatch(data[..], start, end, target, n, last);
      ghost var done := data[..];
      Advance(data, start, n);
      if data[0] > end {
        break;
      }
      GoesOn(done, data[..], start, end, target, n);
      n := n + 1;
    }
    return 0;
  }

  lemma StartsBefore(data: seq<Value>, start: Value, end: Value, target: seq<Word>)
    requires data == [Plus(start, 0), Plus(start, 1), Plus(start, 2), Plus(start, 3)]
    ensures BatchAt(data, BatchStart(start, 0)) && Before4(data, start, end, target, 0)
  {
    FirstNumber(start);
    hide Plus;
    BatchNumbers(data, start, 0);
  }

  lemma GoesOn(done: seq<Value>, data: seq<Value>, start: Value, end: Value, target: seq<Word>, n: nat)
    requires Before4(done, start, end, target, n) && BatchAt(data, BatchStart(start, n + 1)) && data[0] <= end
    requires forall k: nat {:trigger Plus(start, k)} :: k < 4 * (n + 1) ==> !Matches(Plus(start, k), target)
    ensures Before4(data, start, end, target, n + 1)
  {
    hide Plus, Matches;
    BatchNumbers(data, start, n + 1);
  }

  // A comparison leaves one bit a lane.

  datatype Mask = Mask(x0: bool, x1: bool, x2: bool, x3: bool)

  function Bit(m: Mask, i: nat): bool
    requires i < 4
  {
    if i == 0 then m.x0 else if i == 1 then m.x1 else if i == 2 then m.x2 else m.x3
  }

  function CmpEq(v: V4, x: Word): Mask {
    Mask(v.x0 == x, v.x1 == x, v.x2 == x, v.x3 == x)
  }

  function And(l: Mask, m: Mask): Mask {
    Mask(l.x0 && m.x0, l.x1 && m.x1, l.x2 && m.x2, l.x3 && m.x3)
  }

  function Empty(m: Mask): bool {
    !m.x0 && !m.x1 && !m.x2 && !m.x3
  }

  /** The number of the lowest lane set. */
  function CountTrailingZeros(m: Mask): (i: nat)
    requires !Empty(m)
    ensures i < 4 && Bit(m, i) && forall j :: 0 <= j < i ==> !Bit(m, j)
  {
    if m.x0 then 0 else if m.x1 then 1 else if m.x2 then 2 else 3
  }

  /** Which lanes reach the target. Nothing is computed past round 56 when no lane holds the register
      that the target determines. */
  method MatchingLanes(data: seq<Value>, target: seq<Word>, d60: Word) returns (bm: Mask)
    requires |data| == 4 && |target| == 8 && d60 == Undone4(target)
    ensures forall i :: 0 <= i < 4 ==> (Bit(bm, i) <==> Matches(data[i], target))
  {
    hide VState, VW, K, Undone4, Bytes, State, Words, LaneRegs, Matches;
    var w := new V4[48](_ => Broadcast(0));
    var w0, w1 := LoadMessages(Batch(data));
    var r := MessageRounds4(w0, w1);
    var t0, t1;
    r, t0, t1 := FoldedRounds4(w, w0, w1, r);
    r, t0, t1 := LinearRounds(w, w0, w1, r, t0, t1, 16, 41);
    var test := CmpEq(r.a, d60);
    forall i | 0 <= i < 4 ensures Matches(data[i], target) ==> Bit(test, i) {
      RejectLane(data[i], w0, w1, target, i);
    }
    if Empty(test) {
      return test;
    }
    r, t0, t1 := LinearRounds(w, w0, w1, r, t0, t1, 41, 48);
    bm := CompareLanes(r, target);
    forall i | 0 <= i < 4 ensures Bit(bm, i) <==> Matches(data[i], target) {
      AcceptLane(data[i], w0, w1, target, i);
    }
  }

  /** Which lanes hold the target. */
  method CompareLanes(r: VRegs, target: seq<Word>) returns (bm: Mask)
    requires |target| == 8
    ensures forall i :: 0 <= i < 4 ==> (Bit(bm, i) <==> Words(LaneRegs(r, i)) == target)
  {
    var a, b, c, d := CmpEq(r.a, target[0]), CmpEq(r.b, target[1]), CmpEq(r.c, target[2]), CmpEq(r.d, target[3]);
    var e, f, g, h := CmpEq(r.e, target[4]), CmpEq(r.f, target[5]), CmpEq(r.g, target[6]), CmpEq(r.h, target[7]);
    bm := And(And(And(a, b), And(c, d)), And(And(e, f), And(g, h)));
    forall i | 0 <= i < 4 ensures Bit(bm, i) <==> Words(LaneRegs(r, i)) == target {
      SameWords(LaneRegs(r, i), target);
    }
  }

  lemma SameWords(r: Regs, target: seq<Word>)
    requires |target| == 8
    ensures Words(r) == target <==>
            && r.a == target[0] && r.b == target[1] && r.c == target[2] && r.d == target[3]
            && r.e == target[4] && r.f == target[5] && r.g == target[6] && r.h == target[7]
  {
  }

  lemma AcceptLane(v: Value, w0: V4, w1: V4, target: seq<Word>, i: nat)
    requires i < 4 && |target| == 8
    requires Lane(w0, i) == BigEndian(Bytes(v), 0) && Lane(w1, i) == BigEndian(Bytes(v), 4)
    ensures Matches(v, target) <==> Words(LaneRegs(VState(w0, w1, 64), i)) == target
  {
    hide VState, State, Bytes;
    VStateLane(w0, w1, 64, i);
  }

  lemma RejectLane(v: Value, w0: V4, w1: V4, target: seq<Word>, i: nat)
    requires i < 4 && |target| == 8
    requires Lane(w0, i) == BigEndian(Bytes(v), 0) && Lane(w1, i) == BigEndian(Bytes(v), 4)
    ensures Matches(v, target) ==> Lane(VState(w0, w1, 57).a, i) == Undone4(target)
  {
    hide VState, State, Bytes, Undone4;
    AcceptLane(v, w0, w1, target, i);
    VStateLane(w0, w1, 64, i);
    VStateLane(w0, w1, 57, i);
    EarlyRejectSound(LaneBlock(w0, w1, i));
  }

  /** Four values at a time, giving up on a batch after round 56 when it cannot reach the target. */
  method ReverseFullyFused4(start: Value, end: Value, target: seq<Word>) returns (r: Value)
    requires |target| == 8 && Halts4(start, end, target)
    ensures Returns4(start, end, target, r)
  {
    hide Matches, Plus, Returns4, Halts4;
    var d63 := Sub(target[4], Sub(target[0], Add(BigSigma0(target[1]), Maj(target[1], target[2], target[3]))));
    var d62 := Sub(target[5], Sub(target[1], Add(BigSigma0(target[2]), Maj(target[2], target[3], d63))));
    var d61 := Sub(target[6], Sub(target[2], Add(BigSigma0(target[3]), Maj(target[3], d63, d62))));
    var d60 := Sub(target[7], Sub(target[3], Add(BigSigma0(d63), Maj(d63, d62, d61))));
    assert d60 == Undone4(target) by {
      hide Add, Sub, Maj, BigSigma0;
    }
    r := SweepBatches(start, end, target, d60);
  }

  method SweepBatches(start: Value, end: Value, target: seq<Word>, d60: Word) returns (r: Value)
    requires |target| == 8 && Halts4(start, end, target) && d60 == Undone4(target)
    ensures Returns4(start, end, target, r)
  {
    hide Matches, Plus, Undone4, Stops, Returns4, EndsAt4, BatchStart, Halts4, Before4;
    HaltsExactly4(start, end, target);
    ghost var last: nat :| EndsAt4(start, end, target, last);
    var data := new Value[4](i requires 0 <= i < 4 => Plus(start, i));
    ghost var n: nat := 0;
    FirstNumber(start);
    assert data[..] == [Plus(start, 0), Plus(start, 1), Plus(start, 2), Plus(start, 3)];
    StartsBefore(data[..], start, end, target);
    while true
      invariant n <= last && BatchAt(data[..], BatchStart(start, n)) && Before4(data[..], start, end, target, n)
      decreases last - n
    {
      var bm := MatchingLanes(data[..], target, d60);
      assert forall i :: 0 <= i < 4 ==> data[..][i] == data[i];
      if !Empty(bm) {
        HitInBatch(data[..], start, end, target, n, CountTrailingZeros(bm));
        return data[CountTrailingZeros(bm)];
      }
      assert forall i :: 0 <= i < 4 ==> !Bit(bm, i);
      NextBatch(data[..], start, end, target, n, last);
      ghost var done := data[..];
      Advance(data, start, n);
      if data[0] > end {
        break;
      }
      GoesOn(done, data[..], start, end, target, n);
      n := n + 1;
    }
    return 0;
  }
}
