/** How a job's range is cut into blocks, and how workers claim them from one atomic counter. */
module BlockDispense {
  import opened MachineInts

  const BLOCK: nat := 0x1_0000

  function Difficulty(start: U64, end: U64): U64 {
    (end - start) % LIMIT
  }

  function BlockCount(start: U64, end: U64): U64 {
    (Difficulty(start, end) + (BLOCK - 1)) % LIMIT / BLOCK
  }

  function BlockStart(start: U64, b: nat): U64 {
    (start + b * BLOCK) % LIMIT
  }

  function BlockEnd(start: U64, end: U64, b: nat): U64 {
    var last := (BlockStart(start, b) + BLOCK - 1) % LIMIT;
    if end < last then end else last
  }

  predicate InBlock(start: U64, end: U64, b: nat, v: U64) {
    BlockStart(start, b) <= v <= BlockEnd(start, end, b)
  }

  // ------------------------------------------------------------------
  // The blocks cut the range
  // ------------------------------------------------------------------

  /** Some block holds the value. */
  ghost predicate Covered(start: U64, end: U64, v: U64) {
    exists b: nat :: b <= BlockCount(start, end) && InBlock(start, end, b, v)
  }

  /** Every value of the range lies in exactly one of the blocks 0 to `BlockCount`, and nothing else
      lies in any. */
  ghost predicate Cuts(start: U64, end: U64) {
    && (forall v: U64 :: start <= v <= end ==> Covered(start, end, v))
    && (forall v: U64, b: nat :: b <= BlockCount(start, end) && InBlock(start, end, b, v) ==> start <= v <= end)
    && (forall v: U64, b: nat, c: nat ::
          b <= BlockCount(start, end) && c <= BlockCount(start, end) && InBlock(start, end, b, v) && InBlock(start, end, c, v)
          ==> b == c)
  }

  /** No sum wraps: not the one for the block count, and not those for the last block. */
  predicate NoWrap(start: U64, end: U64) {
    var d := Difficulty(start, end);
    && d + (BLOCK - 1) < LIMIT
    && if d % BLOCK == 0 then end + (BLOCK - 1) < LIMIT else start + BlockCount(start, end) * BLOCK < LIMIT
  }

  /** What the count is when its sum does not wrap. */
  lemma CountOf(start: U64, end: U64)
    requires start <= end && end - start + (BLOCK - 1) < LIMIT
    ensures var d := end - start;
            Difficulty(start, end) == d && BlockCount(start, end) == if d % BLOCK == 0 then d / BLOCK else d / BLOCK + 1
  {
  }

  /** Without wrapping, block `b` is the plain interval. */
  lemma PlainBlock(start: U64, end: U64, b: nat)
    requires start <= end && NoWrap(start, end) && b <= BlockCount(start, end)
    ensures BlockStart(start, b) == start + b * BLOCK
    ensures start + b * BLOCK <= end ==>
              BlockEnd(start, end, b) == if end < start + b * BLOCK + (BLOCK - 1) then end else start + b * BLOCK + (BLOCK - 1)
  {
    CountOf(start, end);
  }

  lemma NoWrapCuts(start: U64, end: U64)
    requires start <= end && NoWrap(start, end)
    ensures Cuts(start, end)
  {
    hide BlockStart, BlockEnd, NoWrap, BlockCount;
    CountCovers(start, end);
    forall v: U64 | start <= v <= end ensures Covered(start, end, v) {
      var b := (v - start) / BLOCK;
      PlainBlock(start, end, b);
      assert InBlock(start, end, b, v);
    }
    forall v: U64, b: nat | b <= BlockCount(start, end) && InBlock(start, end, b, v)
      ensures start <= v <= end && b == (v - start) / BLOCK
    {
      PlainBlock(start, end, b);
      EndBound(start, end, b);
    }
  }

  lemma EndBound(start: U64, end: U64, b: nat)
    ensures BlockEnd(start, end, b) <= end
  {
  }

  lemma CountCovers(start: U64, end: U64)
    requires start <= end && NoWrap(start, end)
    ensures (end - start) / BLOCK <= BlockCount(start, end)
  {
    CountOf(start, end);
  }

  /** When the sum for the count wraps there is a single block, and the end is left out. */
  lemma CountWraps(start: U64, end: U64, b: nat)
    requires start <= end && end - start + (BLOCK - 1) >= LIMIT && b <= BlockCount(start, end)
    ensures !InBlock(start, end, b, end)
  {
  }

  /** When the range is a whole number of blocks and one value, and the last block start is so high
      that its end wraps, that value is left out. */
  lemma EndWraps(start: U64, end: U64, b: nat)
    requires start <= end && end - start + (BLOCK - 1) < LIMIT && (end - start) % BLOCK == 0
    requires end + (BLOCK - 1) >= LIMIT && b <= BlockCount(start, end)
    ensures !InBlock(start, end, b, end)
  {
    CountOf(start, end);
    if b == (end - start) / BLOCK {
      assert BlockStart(start, b) == end;
    } else {
      assert start + b * BLOCK + (BLOCK - 1) < end;
    }
  }

  /** When the start of the block past the end wraps, either the end is left out, or that block holds
      a value below the range. */
  lemma StartWraps(start: U64, end: U64)
    requires start <= end && end - start + (BLOCK - 1) < LIMIT && (end - start) % BLOCK != 0
    requires start + BlockCount(start, end) * BLOCK >= LIMIT
    ensures !Cuts(start, end)
  {
    hide InBlock, BlockStart, BlockEnd;
    var count := BlockCount(start, end);
    if start + count * BLOCK == LIMIT {
      StartsAtZero(start, end);
    } else {
      forall b: nat | b <= count ensures !InBlock(start, end, b, end) {
        EndLeftOut(start, end, b);
      }
      assert !Covered(start, end, end);
    }
  }

  lemma StartsAtZero(start: U64, end: U64)
    requires start <= end && end - start + (BLOCK - 1) < LIMIT && (end - start) % BLOCK != 0
    requires start + BlockCount(start, end) * BLOCK == LIMIT
    ensures InBlock(start, end, BlockCount(start, end), 0) && 0 < start
  {
    CountOf(start, end);
  }

  lemma EndLeftOut(start: U64, end: U64, b: nat)
    requires start <= end && end - start + (BLOCK - 1) < LIMIT && (end - start) % BLOCK != 0
    requires start + BlockCount(start, end) * BLOCK > LIMIT && b <= BlockCount(start, end)
    ensures !InBlock(start, end, b, end)
  {
    CountOf(start, end);
    var count := BlockCount(start, end);
    if b == count {
      assert BlockStart(start, b) == start + b * BLOCK - LIMIT;
    } else if b + 1 == count {
      assert BlockStart(start, b) == start + b * BLOCK;
    } else {
      assert start + b * BLOCK + (BLOCK - 1) < end;
    }
  }

  /** The blocks cut a range with values in it if and only if no sum wraps. */
  lemma CutsForward(start: U64, end: U64)
    requires start <= end
    ensures Cuts(start, end) <==> NoWrap(start, end)
  {
    hide BlockStart, BlockEnd, InBlock;
    assert Difficulty(start, end) == end - start;
    if NoWrap(start, end) {
      NoWrapCuts(start, end);
    } else if end - start + (BLOCK - 1) >= LIMIT {
      forall b: nat | b <= BlockCount(start, end) ensures !InBlock(start, end, b, end) {
        CountWraps(start, end, b);
      }
      assert !Covered(start, end, end);
    } else if (end - start) % BLOCK == 0 {
      forall b: nat | b <= BlockCount(start, end) ensures !InBlock(start, end, b, end) {
        EndWraps(start, end, b);
      }
      assert !Covered(start, end, end);
    } else {
      StartWraps(start, end);
    }
  }

  // A request whose start is above its end has no values, and the difficulty wraps.

  /** By how much the start of the block past the end overshoots. */
  function Overshoot(start: U64, end: U64): nat
    requires end < start
  {
    (start - end) % BLOCK
  }

  lemma BackwardCount(start: U64, end: U64)
    requires end < start
    ensures start - end < BLOCK ==> BlockCount(start, end) == 0
    ensures start - end >= BLOCK ==> 0 < BlockCount(start, end) && start + BlockCount(start, end) * BLOCK == LIMIT + end + Overshoot(start, end)
  {
    var d := start - end;
    assert Difficulty(start, end) == LIMIT - d;
    if d >= BLOCK {
      var q, r := d / BLOCK, d % BLOCK;
      assert d == q * BLOCK + r;
      assert LIMIT - d + (BLOCK - 1) == (0x1_0000_0000_0000 - q) * BLOCK + (BLOCK - 1 - r);
      assert BlockCount(start, end) == 0x1_0000_0000_0000 - q;
    }
  }

  /** No block of the request holds a value. */
  predicate NoValues(start: U64, end: U64)
    requires end < start
  {
    start - end < BLOCK || (Overshoot(start, end) != 0 && end + Overshoot(start, end) < BLOCK)
  }

  lemma BackwardEmpty(start: U64, end: U64, b: nat, v: U64)
    requires end < start && NoValues(start, end) && b <= BlockCount(start, end)
    ensures !InBlock(start, end, b, v)
  {
    BackwardCount(start, end);
    EndBound(start, end, b);
    var count := BlockCount(start, end);
    if start - end >= BLOCK {
      if b == count {
        assert BlockStart(start, b) == end + Overshoot(start, end);
      } else {
        assert start + b * BLOCK <= start + (count - 1) * BLOCK < LIMIT;
        assert BlockStart(start, b) == start + b * BLOCK;
      }
    } else {
      assert BlockStart(start, b) == start;
    }
  }

  /** The block with a value when there is one. */
  lemma BackwardValue(start: U64, end: U64)
    requires end < start && !NoValues(start, end)
    ensures !Cuts(start, end)
  {
    BackwardCount(start, end);
    var count, o := BlockCount(start, end), Overshoot(start, end);
    if o == 0 {
      assert BlockStart(start, count) == end;
      assert InBlock(start, end, count, end);
    } else {
      var x := end + o - BLOCK;
      assert start + (count - 1) * BLOCK == LIMIT + x;
      assert BlockStart(start, count - 1) == x;
      assert InBlock(start, end, count - 1, x);
    }
  }

  /** For every request: the blocks hold exactly the values of the range, each once, if and only if no
      sum wraps, or, when the start is above the end, the wrapped blocks all stay above the end. */
  lemma CutsExactly(start: U64, end: U64)
    ensures Cuts(start, end) <==> if start <= end then NoWrap(start, end) else NoValues(start, end)
  {
    hide InBlock, NoWrap, NoValues, BlockCount, Cuts;
    if start <= end {
      CutsForward(start, end);
    } else if NoValues(start, end) {
      NothingCut(start, end);
    } else {
      BackwardValue(start, end);
    }
  }

  lemma NothingCut(start: U64, end: U64)
    requires end < start && NoValues(start, end)
    ensures Cuts(start, end)
  {
    hide InBlock, NoValues, BlockCount;
    forall v: U64, b: nat | b <= BlockCount(start, end) ensures !InBlock(start, end, b, v) {
      BackwardEmpty(start, end, b, v);
    }
  }

  /** The range of all values is cut into a single block, and its end is in none. */
  lemma AllValuesNotCut()
    ensures BlockCount(0, LIMIT - 1) == 0 && !Covered(0, LIMIT - 1, LIMIT - 1) && !Cuts(0, LIMIT - 1)
  {
    var end: U64 := LIMIT - 1;
    forall b: nat | b <= BlockCount(0, end) ensures !InBlock(0, end, b, end) {
      CountWraps(0, end, b);
    }
    assert !Covered(0, end, end);
  }

  /** A request from 2^63 down to 5 has a block with the values 0 to 5. */
  lemma BackwardBlock(v: U64)
    requires v <= 5
    ensures 0x8000_0000_0000 <= BlockCount(0x8000_0000_0000_0000, 5)
    ensures InBlock(0x8000_0000_0000_0000, 5, 0x8000_0000_0000, v)
  {
  }

  predicate Empty(start: U64, end: U64, b: nat) {
    BlockEnd(start, end, b) < BlockStart(start, b)
  }

  /** Only the last block is empty, and only if the range does not end one value into it. */
  ghost predicate LastMayBeEmpty(start: U64, end: U64)
    requires start <= end
  {
    forall b: nat :: b <= BlockCount(start, end) ==>
      (Empty(start, end, b) <==> b == BlockCount(start, end) && (end - start) % BLOCK != 0)
  }

  /** For every range with values: at most the last block is empty, and it is exactly when the range does
      not end one value into a block, if and only if no sum wraps. */
  lemma OnlyLastEmpty(start: U64, end: U64)
    ensures start <= end ==> (LastMayBeEmpty(start, end) <==> NoWrap(start, end))
  {
    hide Empty, BlockCount;
    if start <= end {
      if NoWrap(start, end) {
        forall b: nat | b <= BlockCount(start, end)
          ensures Empty(start, end, b) <==> b == BlockCount(start, end) && (end - start) % BLOCK != 0
        {
          EmptyPlain(start, end, b);
        }
      } else {
        EmptyWraps(start, end);
      }
    }
  }

  lemma EmptyPlain(start: U64, end: U64, b: nat)
    requires start <= end && NoWrap(start, end) && b <= BlockCount(start, end)
    ensures Empty(start, end, b) <==> b == BlockCount(start, end) && (end - start) % BLOCK != 0
  {
    hide NoWrap, BlockStart, BlockEnd;
    PlainBlock(start, end, b);
    EndBound(start, end, b);
    CountNoWrap(start, end);
  }

  /** When a sum wraps, the last block is empty when it should not be, or the other way round. */
  lemma EmptyWraps(start: U64, end: U64)
    requires start <= end && !NoWrap(start, end)
    ensures Empty(start, end, BlockCount(start, end)) <==> (end - start) % BLOCK == 0
  {
    var d, count := end - start, BlockCount(start, end);
    if d + (BLOCK - 1) >= LIMIT {
      assert count == 0 && d % BLOCK != 0;
      assert BlockStart(start, 0) == start;
    } else {
      CountOf(start, end);
      if d % BLOCK == 0 {
        assert BlockStart(start, count) == end;
      } else {
        assert LIMIT <= start + count * BLOCK < LIMIT + BLOCK;
        assert BlockStart(start, count) == start + count * BLOCK - LIMIT;
        assert start + count * BLOCK - LIMIT <= end;
      }
    }
  }

  /** Every value of the range is in some block. */
  ghost predicate AllCovered(start: U64, end: U64) {
    forall v: U64 :: start <= v <= end ==> Covered(start, end, v)
  }

  /** No sum goes past the limit: not the one for the block count, and not those for the last block; the
      start of the block past the end may be the limit itself. */
  predicate SumsFit(start: U64, end: U64)
    requires start <= end
  {
    var d := end - start;
    && d + (BLOCK - 1) < LIMIT
    && if d % BLOCK == 0 then end + (BLOCK - 1) < LIMIT else start + BlockCount(start, end) * BLOCK <= LIMIT
  }

  /** For every request: all values are in blocks if and only if there are none or the sums fit. */
  lemma CoversExactly(start: U64, end: U64)
    ensures AllCovered(start, end) <==> start > end || SumsFit(start, end)
  {
    hide InBlock, NoWrap, BlockCount, SumsFit, BlockStart;
    if start <= end {
      if SumsFit(start, end) {
        forall v: U64 | start <= v <= end ensures Covered(start, end, v) {
          var b := InItsBlock(start, end, v);
        }
      } else {
        forall b: nat | b <= BlockCount(start, end) ensures !InBlock(start, end, b, end) {
          EndNotIn(start, end, b);
        }
        assert !Covered(start, end, end);
      }
    }
  }

  lemma InItsBlock(start: U64, end: U64, v: U64) returns (b: nat)
    requires start <= v <= end && SumsFit(start, end)
    ensures b == (v - start) / BLOCK <= BlockCount(start, end) && InBlock(start, end, b, v)
  {
    CountOf(start, end);
    b := (v - start) / BLOCK;
    assert BlockStart(start, b) == start + b * BLOCK;
  }

  lemma EndNotIn(start: U64, end: U64, b: nat)
    requires start <= end && !SumsFit(start, end) && b <= BlockCount(start, end)
    ensures !InBlock(start, end, b, end)
  {
    hide InBlock, BlockStart;
    if end - start + (BLOCK - 1) >= LIMIT {
      CountWraps(start, end, b);
    } else if (end - start) % BLOCK == 0 {
      EndWraps(start, end, b);
    } else {
      EndLeftOut(start, end, b);
    }
  }

  /** The end of the range is in no block but its own. */
  lemma EndInItsBlock(start: U64, end: U64, b: nat)
    requires start <= end && SumsFit(start, end) && b <= BlockCount(start, end)
    ensures InBlock(start, end, b, end) ==> b == (end - start) / BLOCK
  {
    CountOf(start, end);
    var count := BlockCount(start, end);
    if b < (end - start) / BLOCK {
      assert start + b * BLOCK + (BLOCK - 1) < end;
    } else if b > (end - start) / BLOCK {
      assert b == count && (end - start) % BLOCK != 0;
      if start + count * BLOCK == LIMIT {
        assert BlockStart(start, b) == 0;
        assert end >= LIMIT - BLOCK;
      }
    }
  }

  lemma CountNoWrap(start: U64, end: U64)
    requires start <= end && NoWrap(start, end)
    ensures var d := end - start;
            BlockCount(start, end) == if d % BLOCK == 0 then d / BLOCK else d / BLOCK + 1
  {
    CountOf(start, end);
  }

  // ------------------------------------------------------------------
  // Claiming blocks
  // ------------------------------------------------------------------

  /** What happens to the counter of a job: a worker adds one and keeps what was there before, or the
      block count is stored to it, by an answer or a cancellation. */
  datatype Event = Claim(worker: nat) | Store

  datatype Claimed = Claimed(worker: nat, block: U64)

  /** The counter after some events. */
  function Counter(events: seq<Event>, count: U64): U64 {
    if events == [] then 0 else
      match events[|events| - 1]
      case Claim(_) => (Counter(events[..|events| - 1], count) + 1) % LIMIT
      case Store => count
  }

  /** What the workers got, in the order of the additions. */
  function Claims(events: seq<Event>, count: U64): (r: seq<Claimed>)
    ensures |r| <= |events|
  {
    if events == [] then [] else
      var before := events[..|events| - 1];
      match events[|events| - 1]
      case Claim(w) => Claims(before, count) + [Claimed(w, Counter(before, count))]
      case Store => Claims(before, count)
  }

  ghost predicate Undisturbed(events: seq<Event>) {
    |events| <= LIMIT && forall i :: 0 <= i < |events| ==> events[i].Claim?
  }

  /** Until the job is answered or cancelled, the claims are the numbers from zero on. */
  lemma {:induction false} ClaimsCount(events: seq<Event>, count: U64)
    requires Undisturbed(events)
    ensures |Claims(events, count)| == |events| && Counter(events, count) == |events| % LIMIT
    ensures forall i :: 0 <= i < |events| ==> Claims(events, count)[i] == Claimed(events[i].worker, i)
  {
    if events != [] {
      var before := events[..|events| - 1];
      assert events[|events| - 1].Claim?;
      assert forall i :: 0 <= i < |before| ==> before[i] == events[i];
      ClaimsCount(before, count);
      Below(|before|);
    }
  }

  lemma Below(n: nat)
    requires n < LIMIT
    ensures n % LIMIT == n
  {
  }

  /** How many additions there were since the last store. */
  function Since(events: seq<Event>): (n: nat)
    ensures n <= |events|
  {
    if events == [] then 0 else
      match events[|events| - 1]
      case Claim(_) => Since(events[..|events| - 1]) + 1
      case Store => 0
  }

  /** In every history the counter is the number of additions since the last store, from the block count on if
      there was one and from zero if not. */
  lemma {:induction false} CounterExactly(events: seq<Event>, count: U64)
    ensures Counter(events, count) == ((if Store in events then count else 0) + Since(events)) % LIMIT
  {
    if events == [] {
      Below(0);
    } else {
      var before, last := events[..|events| - 1], events[|events| - 1];
      assert events == before + [last];
      CounterExactly(before, count);
      Below(count);
      NextMod((if Store in before then count else 0) + Since(before));
    }
  }

  lemma NextMod(n: nat)
    ensures (n % LIMIT + 1) % LIMIT == (n + 1) % LIMIT
  {
  }

  /** An addition made after an answer or a cancellation finds the block count or more, and finds the count itself
      exactly when it is the first since the last of these. */
  lemma AfterStore(events: seq<Event>, count: U64)
    requires Store in events && count + |events| < LIMIT
    ensures Counter(events, count) >= count
    ensures Counter(events, count) <= count <==> events[|events| - 1] == Store
  {
    CounterExactly(events, count);
    Below(count + Since(events));
  }

  /** So of the additions that follow one answer or cancellation, until the next, at most one finds a number up to
      the block count. */
  lemma OneAfterStore(events: seq<Event>, count: U64, i: nat, j: nat)
    requires i < j <= |events| && Store in events[..i] && count + |events| < LIMIT
    requires forall k :: i <= k < j ==> events[k].Claim?
    ensures Counter(events[..j], count) > count
  {
    hide Counter;
    assert events[..i] <= events[..j];
    var k :| 0 <= k < i && events[..i][k] == Store;
    assert events[..j][k] == Store;
    AfterStore(events[..j], count);
  }

  /** So under any interleaving each block is claimed at most once. */
  lemma ClaimedOnce(events: seq<Event>, count: U64, i: nat, j: nat)
    requires Undisturbed(events) && i < j < |events|
    ensures |Claims(events, count)| == |events|
    ensures Claims(events, count)[i].block != Claims(events, count)[j].block
  {
    hide Claims, Counter;
    ClaimsCount(events, count);
  }

  /** Somebody claimed a block that holds the value. */
  ghost predicate ValueClaimed(start: U64, end: U64, claims: seq<Claimed>, v: U64) {
    exists i :: 0 <= i < |claims| && claims[i].block <= BlockCount(start, end) && InBlock(start, end, claims[i].block, v)
  }

  /** Every value of the range is in a block that somebody claimed. */
  ghost predicate AllClaimed(start: U64, end: U64, claims: seq<Claimed>) {
    forall v: U64 :: start <= v <= end ==> ValueClaimed(start, end, claims, v)
  }

  /** For every request: after undisturbed claims, every value is claimed exactly when there is none, or the
      sums fit and the blocks that hold values are claimed. */
  lemma AllClaimedExactly(start: U64, end: U64, events: seq<Event>)
    requires Undisturbed(events)
    ensures AllClaimed(start, end, Claims(events, BlockCount(start, end)))
            <==> start > end || (SumsFit(start, end) && (end - start) / BLOCK < |events|)
  {
    hide SumsFit, InBlock, Claims, Counter, BlockCount;
    var claims := Claims(events, BlockCount(start, end));
    ClaimsCount(events, BlockCount(start, end));
    if start <= end {
      if SumsFit(start, end) && (end - start) / BLOCK < |events| {
        forall v: U64 | start <= v <= end ensures ValueClaimed(start, end, claims, v) {
          var b := InItsBlock(start, end, v);
          assert claims[b].block == b;
        }
      } else {
        forall i | 0 <= i < |claims| && claims[i].block <= BlockCount(start, end)
          ensures !InBlock(start, end, claims[i].block, end)
        {
          if !SumsFit(start, end) {
            EndNotIn(start, end, i);
          } else {
            EndInItsBlock(start, end, i);
          }
        }
        assert !ValueClaimed(start, end, claims, end);
      }
    }
  }

  lemma BlocksFor(start: U64, end: U64)
    requires start <= end && SumsFit(start, end)
    ensures var d := end - start;
            BlockCount(start, end) == if d % BLOCK == 0 then d / BLOCK else d / BLOCK + 1
  {
    CountOf(start, end);
  }

  /** For every request: a claim above the block count means that every value in a block was claimed
      before; so all values were, exactly when all are in blocks. */
  lemma OverClaimMeansAll(start: U64, end: U64, events: seq<Event>, i: nat)
    requires Undisturbed(events) && i < |events|
    ensures |Claims(events, BlockCount(start, end))| == |events|
    ensures Claims(events, BlockCount(start, end))[i].block > BlockCount(start, end)
            ==> (AllClaimed(start, end, Claims(events[..i], BlockCount(start, end))) <==> AllCovered(start, end))
  {
    hide SumsFit, Claims, Counter, BlockCount, AllClaimed, AllCovered;
    ClaimsCount(events, BlockCount(start, end));
    CoversExactly(start, end);
    AllClaimedExactly(start, end, events[..i]);
    if start <= end && SumsFit(start, end) {
      BlocksFor(start, end);
    }
  }

  /** The test by which a job counts as done. */
  predicate IsDone(events: seq<Event>, count: U64) {
    Counter(events, count) >= count
  }

  lemma OneValue(start: U64)
    ensures BlockCount(start, start) == 0
  {
  }

  /** A job can count as done while values are unclaimed. For every request this is so exactly when it has
      values and the counter is at the block count or past it, and either the sums do not fit, or the
      counter stands at the block count and the range ends one value into its last block. A range of a
      single value is done before anybody claims it. */
  lemma DoneTooEarly(start: U64, end: U64, events: seq<Event>)
    requires Undisturbed(events) && |events| < LIMIT
    ensures var count := BlockCount(start, end);
            IsDone(events, count) && !AllClaimed(start, end, Claims(events, count))
            <==> start <= end && |events| >= count && (!SumsFit(start, end) || (|events| == count && (end - start) % BLOCK == 0))
    ensures IsDone([], BlockCount(start, start))
  {
    hide SumsFit, Claims, Counter, BlockCount, AllClaimed;
    ClaimsCount(events, BlockCount(start, end));
    AllClaimedExactly(start, end, events);
    OneValue(start);
    if start <= end && SumsFit(start, end) {
      BlocksFor(start, end);
    }
  }
}
