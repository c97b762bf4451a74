/** The in-place radix sorts: one counting sweep for all digits, then a stable scatter pass for each
    digit, least significant first. */
module Sort {

  /** A 32-bit number; a 16-bit one is below 2^16. */
  type Word = n: nat | n < 0x1_0000_0000

  /** Byte `k` of a number, least significant first. */
  function Digit(v: Word, k: nat): (d: nat)
    requires k < 4
    ensures d < 256
  {
    if k == 0 then v % 0x100 else if k == 1 then v / 0x100 % 0x100
    else if k == 2 then v / 0x1_0000 % 0x100 else v / 0x100_0000 % 0x100
  }

  /** The number with only its `n` low bytes kept. */
  function Low(v: Word, n: nat): nat
    requires n <= 4
  {
    if n == 0 then 0 else if n == 1 then v % 0x100 else if n == 2 then v % 0x1_0000
    else if n == 3 then v % 0x100_0000 else v
  }

  function Weight(k: nat): nat
    requires k < 4
  {
    if k == 0 then 1 else if k == 1 then 0x100 else if k == 2 then 0x1_0000 else 0x100_0000
  }

  lemma LowSplits(v: Word, k: nat)
    requires k < 4
    ensures Low(v, k + 1) == Digit(v, k) * Weight(k) + Low(v, k) && Low(v, k) < Weight(k)
  {
    if k == 1 {
      SplitAt(v, v / 0x100, v % 0x100, 0x100, 0x1_0000);
    } else if k == 2 {
      SplitAt(v, v / 0x1_0000, v % 0x1_0000, 0x1_0000, 0x100_0000);
    } else if k == 3 {
      assert v / 0x100_0000 < 0x100;
    }
  }

  lemma SplitAt(v: nat, q: nat, r: nat, m: nat, n: nat)
    requires (m == 0x100 && n == 0x1_0000) || (m == 0x1_0000 && n == 0x100_0000)
    requires v == q * m + r && r < m
    ensures v % n == q % 0x100 * m + r
  {
    var h, l := q / 0x100, q % 0x100;
    assert q == h * 0x100 + l;
    if m == 0x100 {
      assert v == h * 0x1_0000 + (l * 0x100 + r);
    } else {
      assert v == h * 0x100_0000 + (l * 0x1_0000 + r);
    }
  }

  lemma LowOrder(v: Word, w: Word, k: nat)
    requires k < 4
    requires Digit(v, k) < Digit(w, k) || (Digit(v, k) == Digit(w, k) && Low(v, k) <= Low(w, k))
    ensures Low(v, k + 1) <= Low(w, k + 1)
  {
    hide Low, Digit;
    LowSplits(v, k);
    LowSplits(w, k);
  }

  // ------------------------------------------------------------------
  // What a pass does
  // ------------------------------------------------------------------

  /** The numbers whose digit `k` is `d`, in order. */
  ghost function Bucket(s: seq<Word>, k: nat, d: nat): (b: seq<Word>)
    requires k < 4
    ensures |b| <= |s|
    ensures forall j :: 0 <= j < |b| ==> Digit(b[j], k) == d
  {
    if s == [] then [] else
      Bucket(s[..|s| - 1], k, d) + if Digit(s[|s| - 1], k) == d then [s[|s| - 1]] else []
  }

  /** The buckets of all digits below `n`, one after the other. */
  ghost function Upto(s: seq<Word>, k: nat, n: nat): seq<Word>
    requires k < 4 && n <= 256
  {
    if n == 0 then [] else Upto(s, k, n - 1) + Bucket(s, k, n - 1)
  }

  /** A pass lines up the buckets of digit `k`. */
  ghost function Pass(s: seq<Word>, k: nat): seq<Word>
    requires k < 4
  {
    Upto(s, k, 256)
  }

  lemma BucketNext(s: seq<Word>, v: Word, k: nat, d: nat)
    requires k < 4
    ensures Bucket(s + [v], k, d) == if Digit(v, k) == d then Bucket(s, k, d) + [v] else Bucket(s, k, d)
  {
    assert (s + [v])[..|s|] == s;
  }

  lemma GrowsByOne(u: seq<Word>, b: seq<Word>, v: Word, was: seq<Word>, low: bool, here: bool)
    requires multiset(u) == multiset(was) + if low then multiset{v} else multiset{}
    requires !(low && here)
    ensures multiset(u + if here then b + [v] else b) == multiset(was + b) + if low || here then multiset{v} else multiset{}
  {
  }

  /** The buckets below `n` grow only by a number whose digit is below `n`. */
  lemma {:induction false} UptoNext(s: seq<Word>, v: Word, k: nat, n: nat)
    requires k < 4 && n <= 256
    ensures multiset(Upto(s + [v], k, n)) == multiset(Upto(s, k, n)) + if Digit(v, k) < n then multiset{v} else multiset{}
  {
    hide Bucket, Digit;
    if n > 0 {
      UptoNext(s, v, k, n - 1);
      BucketNext(s, v, k, n - 1);
      var d := Digit(v, k);
      GrowsByOne(Upto(s + [v], k, n - 1), Bucket(s, k, n - 1), v, Upto(s, k, n - 1), d < n - 1, d == n - 1);
    }
  }

  lemma {:induction false} UptoEmpty(k: nat, n: nat)
    requires k < 4 && n <= 256
    ensures Upto([], k, n) == []
  {
    if n > 0 {
      UptoEmpty(k, n - 1);
    }
  }

  /** A pass permutes. */
  lemma {:induction false} PassPermutes(s: seq<Word>, k: nat)
    requires k < 4
    ensures multiset(Pass(s, k)) == multiset(s) && |Pass(s, k)| == |s|
  {
    hide Upto, Digit;
    if s == [] {
      UptoEmpty(k, 256);
    } else {
      var v := s[|s| - 1];
      PassPermutes(s[..|s| - 1], k);
      UptoNext(s[..|s| - 1], v, k, 256);
      assert s == s[..|s| - 1] + [v];
      DigitBound(v, k);
    }
    assert |Pass(s, k)| == |multiset(Pass(s, k))| && |s| == |multiset(s)|;
  }

  lemma DigitBound(v: Word, k: nat)
    requires k < 4
    ensures Digit(v, k) < 256
  {
  }

  /** The buckets lie one after the other. */
  lemma {:induction false} UptoGrows(s: seq<Word>, k: nat, n: nat, m: nat)
    requires k < 4 && n <= m <= 256
    ensures |Upto(s, k, n)| <= |Upto(s, k, m)| && Upto(s, k, m)[..|Upto(s, k, n)|] == Upto(s, k, n)
    decreases m - n
  {
    hide Bucket;
    if n < m {
      UptoGrows(s, k, n, m - 1);
    }
  }

  lemma UptoBound(s: seq<Word>, k: nat, n: nat)
    requires k < 4 && n <= 256
    ensures |Upto(s, k, n)| <= |s|
  {
    UptoGrows(s, k, n, 256);
    PassPermutes(s, k);
  }

  /** The bucket of digit `d` is where the pass puts it. */
  lemma BucketInPass(s: seq<Word>, k: nat, d: nat)
    requires k < 4 && d < 256
    ensures |Upto(s, k, d)| + |Bucket(s, k, d)| == |Upto(s, k, d + 1)| <= |Pass(s, k)|
    ensures Pass(s, k)[|Upto(s, k, d)|..|Upto(s, k, d + 1)|] == Bucket(s, k, d)
  {
    hide Bucket;
    UptoGrows(s, k, d + 1, 256);
    var p := Pass(s, k);
    assert p[..|Upto(s, k, d + 1)|] == Upto(s, k, d) + Bucket(s, k, d);
  }

  /** Every place of a pass lies in a bucket. */
  lemma {:induction false} PlaceOf(s: seq<Word>, k: nat, n: nat, p: nat) returns (d: nat)
    requires k < 4 && n <= 256 && p < |Upto(s, k, n)|
    ensures d < n && |Upto(s, k, d)| <= p < |Upto(s, k, d + 1)|
  {
    hide Bucket;
    if p < |Upto(s, k, n - 1)| {
      d := PlaceOf(s, k, n - 1, p);
    } else {
      d := n - 1;
    }
  }

  // ------------------------------------------------------------------
  // Sorting by more and more digits
  // ------------------------------------------------------------------

  /** Ordered by the `n` low bytes. */
  ghost predicate SortedLow(s: seq<Word>, n: nat)
    requires n <= 4
  {
    forall i, j :: 0 <= i < j < |s| ==> Low(s[i], n) <= Low(s[j], n)
  }

  lemma {:induction false} BucketMember(s: seq<Word>, k: nat, d: nat, j: nat) returns (i: nat)
    requires k < 4 && j < |Bucket(s, k, d)|
    ensures i < |s| && s[i] == Bucket(s, k, d)[j]
  {
    hide Digit;
    if j < |Bucket(s[..|s| - 1], k, d)| {
      i := BucketMember(s[..|s| - 1], k, d, j);
    } else {
      i := |s| - 1;
    }
  }

  lemma {:induction false} BucketSorted(s: seq<Word>, k: nat, d: nat, n: nat)
    requires k < 4 && n <= 4 && SortedLow(s, n)
    ensures SortedLow(Bucket(s, k, d), n)
  {
    hide Digit, Low;
    if s != [] {
      BucketSorted(s[..|s| - 1], k, d, n);
      var b := Bucket(s[..|s| - 1], k, d);
      forall j | 0 <= j < |b| ensures Low(b[j], n) <= Low(s[|s| - 1], n) {
        var i := BucketMember(s[..|s| - 1], k, d, j);
      }
    }
  }

  /** Stability makes a pass keep the order of the lower digits among equal ones. */
  lemma PassSorts(s: seq<Word>, k: nat)
    requires k < 4 && SortedLow(s, k)
    ensures SortedLow(Pass(s, k), k + 1)
  {
    hide Digit, Low, Upto, Bucket, Pass;
    var t := Pass(s, k);
    forall i, j | 0 <= i < j < |t| ensures Low(t[i], k + 1) <= Low(t[j], k + 1) {
      PassSortsPair(s, k, i, j);
    }
  }

  lemma PassSortsPair(s: seq<Word>, k: nat, i: nat, j: nat)
    requires k < 4 && SortedLow(s, k) && i < j < |Pass(s, k)|
    ensures Low(Pass(s, k)[i], k + 1) <= Low(Pass(s, k)[j], k + 1)
  {
    hide Digit, Low, Bucket;
    var t := Pass(s, k);
    var d := PlaceOf(s, k, 256, i);
    var e := PlaceOf(s, k, 256, j);
    BucketInPass(s, k, d);
    BucketInPass(s, k, e);
    if e < d {
      UptoGrows(s, k, e + 1, d);
    }
    BucketSorted(s, k, d, k);
    var at := |Upto(s, k, d)|;
    assert t[i] == t[at..|Upto(s, k, d + 1)|][i - at] == Bucket(s, k, d)[i - at];
    assert t[j] == t[|Upto(s, k, e)|..|Upto(s, k, e + 1)|][j - |Upto(s, k, e)|];
    LowOrder(t[i], t[j], k);
  }

  // ------------------------------------------------------------------
  // A pass is stable: it leaves every bucket as it was
  // ------------------------------------------------------------------

  lemma {:induction false} BucketConcat(s: seq<Word>, t: seq<Word>, k: nat, d: nat)
    requires k < 4
    ensures Bucket(s + t, k, d) == Bucket(s, k, d) + Bucket(t, k, d)
    decreases |t|
  {
    hide Digit;
    if t == [] {
      assert s + t == s;
    } else {
      assert (s + t)[..|s + t| - 1] == s + t[..|t| - 1];
      BucketConcat(s, t[..|t| - 1], k, d);
    }
  }

  lemma {:induction false} BucketOfBucket(b: seq<Word>, k: nat, d: nat, e: nat)
    requires k < 4 && forall j :: 0 <= j < |b| ==> Digit(b[j], k) == e
    ensures Bucket(b, k, d) == if d == e then b else []
  {
    hide Digit;
    if b != [] {
      BucketOfBucket(b[..|b| - 1], k, d, e);
    }
  }

  lemma {:induction false} PassIsStable(s: seq<Word>, k: nat, d: nat, n: nat)
    requires k < 4 && d < 256 && n <= 256
    ensures Bucket(Upto(s, k, n), k, d) == if d < n then Bucket(s, k, d) else []
    ensures n == 256 ==> Bucket(Pass(s, k), k, d) == Bucket(s, k, d)
  {
    hide Digit, Bucket;
    if n > 0 {
      PassIsStable(s, k, d, n - 1);
      BucketConcat(Upto(s, k, n - 1), Bucket(s, k, n - 1), k, d);
      BucketOfBucket(Bucket(s, k, n - 1), k, d, n - 1);
    } else {
      assert Bucket([], k, d) == [];
    }
  }

  // ------------------------------------------------------------------
  // The arrays
  // ------------------------------------------------------------------

  /** Where the count of digit `d` in column `k` is, with the columns of all digits interleaved. */
  function Slot(columns: nat, d: nat, k: nat): (r: nat)
    requires (columns == 2 || columns == 4) && d < 256 && k < columns
    ensures r < 256 * columns
  {
    if columns == 2 then 2 * d + k else 4 * d + k
  }

  predicate Shape(counts: seq<Word>, columns: nat) {
    (columns == 2 || columns == 4) && |counts| == 256 * columns
  }

  /** Column `k` counts the digits of `s`. */
  ghost predicate Counted(counts: seq<Word>, columns: nat, k: nat, s: seq<Word>) {
    && Shape(counts, columns)
    && k < columns
    && forall d :: 0 <= d < 256 ==> counts[Slot(columns, d, k)] == |Bucket(s, k, d)|
  }

  /** Column `k` holds running totals up to digit `i`, and plain counts after it. */
  ghost predicate Summed(counts: seq<Word>, columns: nat, k: nat, s: seq<Word>, i: nat) {
    && Shape(counts, columns)
    && k < columns
    && forall d :: 0 <= d < 256 ==>
         counts[Slot(columns, d, k)] == if d <= i then |Upto(s, k, d + 1)| else |Bucket(s, k, d)|
  }

  /** Column `l` is as it was. */
  ghost predicate SameColumn(counts: seq<Word>, was: seq<Word>, columns: nat, l: nat) {
    && Shape(counts, columns)
    && Shape(was, columns)
    && l < columns
    && forall d :: 0 <= d < 256 ==> counts[Slot(columns, d, l)] == was[Slot(columns, d, l)]
  }

  /** Count digit `k` of one number. */
  method Increment(counts: array<Word>, columns: nat, k: nat, v: Word, ghost s: seq<Word>)
    requires Counted(counts[..], columns, k, s) && |s| < 0xffff_ffff
    modifies counts
    ensures Counted(counts[..], columns, k, s + [v])
    ensures forall l :: 0 <= l < columns && l != k ==> SameColumn(counts[..], old(counts[..]), columns, l)
  {
    hide Bucket, Digit;
    var j := Slot(columns, Digit(v, k), k);
    counts[j] := counts[j] + 1;
    forall d | 0 <= d < 256 ensures counts[Slot(columns, d, k)] == |Bucket(s + [v], k, d)| {
      BucketNext(s, v, k, d);
    }
  }

  /** Add the total of digit `i` to the count of the next digit. */
  method AddRow(counts: array<Word>, columns: nat, k: nat, i: nat, ghost s: seq<Word>)
    requires i < 255 && Summed(counts[..], columns, k, s, i) && |s| < 0x1_0000_0000
    modifies counts
    ensures Summed(counts[..], columns, k, s, i + 1)
    ensures forall l :: 0 <= l < columns && l != k ==> SameColumn(counts[..], old(counts[..]), columns, l)
  {
    hide Bucket, Digit, Upto;
    var j := Slot(columns, i + 1, k);
    BucketInPass(s, k, i + 1);
    UptoBound(s, k, i + 2);
    assert counts[..][j] == |Bucket(s, k, i + 1)| && counts[..][Slot(columns, i, k)] == |Upto(s, k, i + 1)|;
    counts[j] := counts[j] + counts[Slot(columns, i, k)];
  }

  /** The place one past the part of bucket `d` that the first `i` numbers fill. */
  ghost function Next(s: seq<Word>, k: nat, i: nat, d: nat): nat
    requires k < 4 && i <= |s| && d < 256
  {
    |Upto(s, k, d)| + |Bucket(s[..i], k, d)|
  }

  /** Bucket `d` holds its numbers from `i` on where the pass wants them, and column `k` says where it
      goes on. */
  ghost predicate BucketDone(to: seq<Word>, counts: seq<Word>, columns: nat, k: nat, s: seq<Word>, i: nat, d: nat)
    requires Shape(counts, columns) && k < columns && i <= |s| == |Pass(s, k)| <= |to| && d < 256
  {
    && counts[Slot(columns, d, k)] == Next(s, k, i, d)
    && forall p :: Next(s, k, i, d) <= p < |Upto(s, k, d + 1)| && p < |s| ==> to[p] == Pass(s, k)[p]
  }

  /** The state of a scatter pass: the numbers from `i` on are where they belong, and column `k` says
      where each bucket goes on. */
  ghost predicate Scattered(to: seq<Word>, counts: seq<Word>, columns: nat, k: nat, s: seq<Word>, i: nat) {
    && Shape(counts, columns)
    && k < columns
    && i <= |s| == |Pass(s, k)| <= |to|
    && forall d :: 0 <= d < 256 ==> BucketDone(to, counts, columns, k, s, i, d)
  }

  lemma ScatterStart(to: seq<Word>, counts: seq<Word>, columns: nat, k: nat, s: seq<Word>)
    requires Summed(counts, columns, k, s, 255) && |s| <= |to|
    ensures Scattered(to, counts, columns, k, s, |s|)
  {
    hide Bucket, Upto, Digit;
    PassPermutes(s, k);
    assert s[..|s|] == s;
    forall d | 0 <= d < 256 ensures BucketDone(to, counts, columns, k, s, |s|, d) {
      BucketInPass(s, k, d);
    }
  }

  lemma ScatterEnd(to: seq<Word>, counts: seq<Word>, columns: nat, k: nat, s: seq<Word>)
    requires Scattered(to, counts, columns, k, s, 0)
    ensures to[..|s|] == Pass(s, k)
  {
    hide Upto, Digit;
    forall p | 0 <= p < |s| ensures to[p] == Pass(s, k)[p] {
      var d := PlaceOf(s, k, 256, p);
      assert BucketDone(to, counts, columns, k, s, 0, d);
      assert Next(s, k, 0, d) == |Upto(s, k, d)|;
    }
  }

  /** The number goes to the last place its bucket still has. */
  lemma ScatterPlace(s: seq<Word>, k: nat, i: nat, d: nat)
    requires k < 4 && 0 < i <= |s| && d == Digit(s[i - 1], k) && |s| == |Pass(s, k)|
    ensures 0 < Next(s, k, i, d) <= |Upto(s, k, d + 1)| <= |s|
    ensures Next(s, k, i - 1, d) == Next(s, k, i, d) - 1
    ensures Pass(s, k)[Next(s, k, i, d) - 1] == s[i - 1]
  {
    hide Upto, Digit, Bucket;
    DigitBound(s[i - 1], k);
    assert s[..i] == s[..i - 1] + [s[i - 1]];
    BucketNext(s[..i - 1], s[i - 1], k, d);
    assert s == s[..i] + s[i..];
    BucketConcat(s[..i], s[i..], k, d);
    BucketInPass(s, k, d);
    var at, j := |Upto(s, k, d)|, |Bucket(s[..i], k, d)| - 1;
    assert Pass(s, k)[at + j] == Pass(s, k)[at..|Upto(s, k, d + 1)|][j];
  }

  lemma NextOther(s: seq<Word>, k: nat, i: nat, d: nat)
    requires k < 4 && 0 < i <= |s| && d < 256 && d != Digit(s[i - 1], k)
    ensures Next(s, k, i - 1, d) == Next(s, k, i, d)
  {
    hide Upto, Digit, Bucket;
    assert s[..i] == s[..i - 1] + [s[i - 1]];
    BucketNext(s[..i - 1], s[i - 1], k, d);
  }

  lemma BucketsApart(s: seq<Word>, k: nat, d: nat, e: nat)
    requires k < 4 && d < e < 256
    ensures |Upto(s, k, d + 1)| <= |Upto(s, k, e)|
  {
    UptoGrows(s, k, d + 1, e);
  }

  lemma ScatterStep(to: seq<Word>, counts: seq<Word>, columns: nat, k: nat, s: seq<Word>, i: nat)
    requires Scattered(to, counts, columns, k, s, i) && 0 < i
    ensures var j := Slot(columns, Digit(s[i - 1], k), k);
            && 0 < counts[j] <= |s|
            && Scattered(to[counts[j] - 1 := s[i - 1]], counts[j := counts[j] - 1], columns, k, s, i - 1)
  {
    hide Upto, Digit, Bucket, Pass, Next, BucketDone, Slot;
    var e := Digit(s[i - 1], k);
    DigitBound(s[i - 1], k);
    var j := Slot(columns, e, k);
    SameBucketStep(to, counts, columns, k, s, i, e);
    var newTo, newCounts := to[counts[j] - 1 := s[i - 1]], counts[j := counts[j] - 1];
    var n := i - 1;
    forall d | 0 <= d < 256 ensures BucketDone(newTo, newCounts, columns, k, s, n, d) {
      if d != e {
        OtherBucketStep(to, counts, columns, k, s, i, d);
      }
    }
  }

  lemma SameBucketStep(to: seq<Word>, counts: seq<Word>, columns: nat, k: nat, s: seq<Word>, i: nat, d: nat)
    requires Scattered(to, counts, columns, k, s, i) && 0 < i && d == Digit(s[i - 1], k) && d < 256
    ensures var j := Slot(columns, d, k);
            && 0 < counts[j] <= |s|
            && BucketDone(to[counts[j] - 1 := s[i - 1]], counts[j := counts[j] - 1], columns, k, s, i - 1, d)
  {
    hide Upto, Digit, Bucket, Pass, Next;
    assert BucketDone(to, counts, columns, k, s, i, d);
    ScatterPlace(s, k, i, d);
  }

  lemma OtherBucketStep(to: seq<Word>, counts: seq<Word>, columns: nat, k: nat, s: seq<Word>, i: nat, d: nat)
    requires Scattered(to, counts, columns, k, s, i) && 0 < i && d < 256 && d != Digit(s[i - 1], k)
    ensures var j := Slot(columns, Digit(s[i - 1], k), k);
            && 0 < counts[j] <= |s|
            && BucketDone(to[counts[j] - 1 := s[i - 1]], counts[j := counts[j] - 1], columns, k, s, i - 1, d)
  {
    hide Upto, Digit, Bucket, Pass, Next;
    var e := Digit(s[i - 1], k);
    DigitBound(s[i - 1], k);
    assert BucketDone(to, counts, columns, k, s, i, d) && BucketDone(to, counts, columns, k, s, i, e);
    ScatterPlace(s, k, i, e);
    NextOther(s, k, i, d);
    NextBounds(s, k, i, d);
    NextBounds(s, k, i, e);
    if d < e {
      BucketsApart(s, k, d, e);
    } else {
      BucketsApart(s, k, e, d);
    }
  }

  lemma NextBounds(s: seq<Word>, k: nat, i: nat, d: nat)
    requires k < 4 && i <= |s| && d < 256
    ensures |Upto(s, k, d)| <= Next(s, k, i, d)
    ensures 0 < i && d == Digit(s[i - 1], k) ==> |Upto(s, k, d)| < Next(s, k, i, d)
  {
    hide Upto, Digit;
    if 0 < i {
      assert s[..i] == s[..i - 1] + [s[i - 1]];
      BucketNext(s[..i - 1], s[i - 1], k, d);
    }
  }

  /** One scatter pass, from the last number to the first. */
  method ScatterPass(from: array<Word>, to: array<Word>, length: Word, counts: array<Word>, columns: nat, k: nat)
    requires length <= from.Length && length <= to.Length && from != to && from != counts && to != counts
    requires Summed(counts[..], columns, k, from[..length], 255)
    modifies to, counts
    ensures to[..length] == Pass(from[..length], k) && to[length..] == old(to[length..])
    ensures forall l :: 0 <= l < columns && l != k ==> SameColumn(counts[..], old(counts[..]), columns, l)
  {
    hide Bucket, Upto, Digit, Pass, Scattered, Summed, Slot;
    ghost var s := from[..length];
    ScatterStart(to[..], counts[..], columns, k, s);
    ScatterShape(to[..], counts[..], columns, k, s, length);
    var i: nat := length;
    while i != 0
      invariant i <= length
      invariant Scattered(to[..], counts[..], columns, k, s, i)
      invariant to[length..] == old(to[length..])
      invariant forall l :: 0 <= l < columns && l != k ==> SameColumn(counts[..], old(counts[..]), columns, l)
    {
      ScatterShape(to[..], counts[..], columns, k, s, i);
      ScatterStep(to[..], counts[..], columns, k, s, i);
      ghost var wasTo, wasCounts := to[..], counts[..];
      i := i - 1;
      var v := from[i];
      assert v == s[i];
      var j := Slot(columns, Digit(v, k), k);
      counts[j] := counts[j] - 1;
      to[counts[j]] := v;
      assert counts[..] == wasCounts[j := wasCounts[j] - 1];
      assert to[..] == wasTo[counts[j] := v];
      assert to[length..] == wasTo[length..];
      forall l | 0 <= l < columns && l != k ensures SameColumn(counts[..], old(counts[..]), columns, l) {
        ColumnsApart(wasCounts, columns, Digit(v, k), k, l, wasCounts[j] - 1);
        SameColumnTwice(counts[..], wasCounts, old(counts[..]), columns, l);
      }
    }
    ScatterEnd(to[..], counts[..], columns, k, s);
    assert to[..][..length] == to[..length];
  }

  lemma ScatterShape(to: seq<Word>, counts: seq<Word>, columns: nat, k: nat, s: seq<Word>, i: nat)
    requires Scattered(to, counts, columns, k, s, i)
    ensures Shape(counts, columns) && k < columns
  {
    hide Bucket, Upto, Pass, Next;
  }

  lemma ColumnsApart(was: seq<Word>, columns: nat, d: nat, k: nat, l: nat, x: Word)
    requires Shape(was, columns) && d < 256 && k < columns && l < columns && l != k
    ensures SameColumn(was[Slot(columns, d, k) := x], was, columns, l)
  {
  }

  lemma SameColumnTwice(c: seq<Word>, b: seq<Word>, a: seq<Word>, columns: nat, l: nat)
    requires SameColumn(c, b, columns, l) && SameColumn(b, a, columns, l)
    ensures SameColumn(c, a, columns, l)
  {
  }

  /** The four increments for one number, or the two. */
  method CountNumber(counts: array<Word>, columns: nat, v: Word, ghost s: seq<Word>)
    requires Shape(counts[..], columns) && |s| < 0xffff_ffff
    requires forall k :: 0 <= k < columns ==> Counted(counts[..], columns, k, s)
    modifies counts
    ensures forall k :: 0 <= k < columns ==> Counted(counts[..], columns, k, s + [v])
  {
    hide Counted, SameColumn;
    ghost var c0 := counts[..];
    Increment(counts, columns, 0, v, s);
    ghost var c1 := counts[..];
    forall k | 1 <= k < columns ensures Counted(c1, columns, k, s) { CountedSame(c1, c0, columns, k, s); }
    Increment(counts, columns, 1, v, s);
    ghost var c2 := counts[..];
    forall k | 2 <= k < columns ensures Counted(c2, columns, k, s) { CountedSame(c2, c1, columns, k, s); }
    CountedSame(c2, c1, columns, 0, s + [v]);
    if columns == 4 {
      Increment(counts, columns, 2, v, s);
      ghost var c3 := counts[..];
      CountedSame(c3, c2, columns, 3, s);
      forall k | 0 <= k < 2 ensures Counted(c3, columns, k, s + [v]) { CountedSame(c3, c2, columns, k, s + [v]); }
      Increment(counts, columns, 3, v, s);
      forall k | 0 <= k < 3 ensures Counted(counts[..], columns, k, s + [v]) { CountedSame(counts[..], c3, columns, k, s + [v]); }
    }
  }

  lemma CountedSame(counts: seq<Word>, was: seq<Word>, columns: nat, k: nat, s: seq<Word>)
    requires SameColumn(counts, was, columns, k) && Counted(was, columns, k, s)
    ensures Counted(counts, columns, k, s)
  {
    hide Bucket;
  }

  lemma SummedSame(counts: seq<Word>, was: seq<Word>, columns: nat, k: nat, s: seq<Word>, i: nat)
    requires SameColumn(counts, was, columns, k) && Summed(was, columns, k, s, i)
    ensures Summed(counts, columns, k, s, i)
  {
    hide Bucket, Upto;
  }

  /** The running sums of one digit value for all columns. */
  method AddRows(counts: array<Word>, columns: nat, i: nat, ghost s: seq<Word>)
    requires Shape(counts[..], columns) && i < 255 && |s| < 0x1_0000_0000
    requires forall k :: 0 <= k < columns ==> Summed(counts[..], columns, k, s, i)
    modifies counts
    ensures var n := i + 1;
            forall k :: 0 <= k < columns ==> Summed(counts[..], columns, k, s, n)
  {
    hide Summed, SameColumn;
    ghost var c0, n := counts[..], i + 1;
    AddRow(counts, columns, 0, i, s);
    ghost var c1 := counts[..];
    forall k | 1 <= k < columns ensures Summed(c1, columns, k, s, i) { SummedSame(c1, c0, columns, k, s, i); }
    AddRow(counts, columns, 1, i, s);
    ghost var c2 := counts[..];
    forall k | 2 <= k < columns ensures Summed(c2, columns, k, s, i) { SummedSame(c2, c1, columns, k, s, i); }
    SummedSame(c2, c1, columns, 0, s, n);
    if columns == 4 {
      AddRow(counts, columns, 2, i, s);
      ghost var c3 := counts[..];
      SummedSame(c3, c2, columns, 3, s, i);
      forall k | 0 <= k < 2 ensures Summed(c3, columns, k, s, n) { SummedSame(c3, c2, columns, k, s, n); }
      AddRow(counts, columns, 3, i, s);
      forall k | 0 <= k < 3 ensures Summed(counts[..], columns, k, s, n) { SummedSame(counts[..], c3, columns, k, s, n); }
    }
  }

  /** One sweep over the numbers counts every digit; one over the counts turns them into the places
      where the buckets end. */
  method CountAll(src: array<Word>, length: Word, columns: nat) returns (counts: array<Word>)
    requires length <= src.Length && (columns == 2 || columns == 4)
    ensures fresh(counts)
    ensures Shape(counts[..], columns) && forall k :: 0 <= k < columns ==> Summed(counts[..], columns, k, src[..length], 255)
  {
    hide Counted, Summed;
    counts := new Word[256 * columns](_ => 0);
    forall k | 0 <= k < columns ensures Counted(counts[..], columns, k, []) {
      NothingCounted(counts[..], columns, k);
    }
    assert src[..0] == [];
    for i := 0 to length
      invariant Shape(counts[..], columns)
      invariant forall k :: 0 <= k < columns ==> Counted(counts[..], columns, k, src[..i])
    {
      assert src[..i + 1] == src[..i] + [src[i]];
      CountNumber(counts, columns, src[i], src[..i]);
    }
    ghost var s := src[..length];
    forall k | 0 <= k < columns ensures Summed(counts[..], columns, k, s, 0) {
      NothingSummed(counts[..], columns, k, s);
    }
    for i := 0 to 255
      invariant Shape(counts[..], columns)
      invariant forall k :: 0 <= k < columns ==> Summed(counts[..], columns, k, s, i)
    {
      AddRows(counts, columns, i, s);
    }
  }

  lemma NothingCounted(counts: seq<Word>, columns: nat, k: nat)
    requires Shape(counts, columns) && k < columns && forall j :: 0 <= j < |counts| ==> counts[j] == 0
    ensures Counted(counts, columns, k, [])
  {
    hide Slot;
    forall d | 0 <= d < 256 ensures counts[Slot(columns, d, k)] == |Bucket([], k, d)| {}
  }

  lemma NothingSummed(counts: seq<Word>, columns: nat, k: nat, s: seq<Word>)
    requires Counted(counts, columns, k, s)
    ensures Summed(counts, columns, k, s, 0)
  {
    hide Bucket, Slot;
    assert Upto(s, k, 1) == Upto(s, k, 0) + Bucket(s, k, 0);
    assert Upto(s, k, 0) == [];
  }

  ghost predicate Sorted(s: seq<Word>) {
    forall i, j :: 0 <= i < j < |s| ==> s[i] <= s[j]
  }

  /** All passes over all digits sort. */
  lemma FourPassesSort(s: seq<Word>)
    ensures var t := Pass(Pass(Pass(Pass(s, 0), 1), 2), 3);
            && Sorted(t) && multiset(t) == multiset(s)
            && multiset(Pass(s, 0)) == multiset(s)
            && multiset(Pass(Pass(s, 0), 1)) == multiset(s)
            && multiset(Pass(Pass(Pass(s, 0), 1), 2)) == multiset(s)
  {
    hide Pass;
    var s1 := Pass(s, 0);
    var s2 := Pass(s1, 1);
    var s3 := Pass(s2, 2);
    TwoPassesSort(s);
    PassPermutes(s2, 2);
    PassPermutes(s3, 3);
    PassSorts(s2, 2);
    PassSorts(s3, 3);
  }

  /** Two passes sort by the two low bytes. */
  lemma TwoPassesSort(s: seq<Word>)
    ensures var t := Pass(Pass(s, 0), 1);
            SortedLow(t, 2) && multiset(t) == multiset(s) && multiset(Pass(s, 0)) == multiset(s)
  {
    hide Pass;
    PassPermutes(s, 0);
    PassPermutes(Pass(s, 0), 1);
    PassSorts(s, 0);
    PassSorts(Pass(s, 0), 1);
  }

  lemma WithoutOne(s: seq<Word>, t: seq<Word>) returns (i: nat)
    requires s != [] && multiset(s) == multiset(t)
    ensures i < |t| && t[i] == s[|s| - 1]
    ensures multiset(s[..|s| - 1]) == multiset(t[..i] + t[i + 1..])
  {
    var v := s[|s| - 1];
    assert s == s[..|s| - 1] + [v];
    assert v in multiset(t);
    i :| 0 <= i < |t| && t[i] == v;
    assert t == t[..i] + [v] + t[i + 1..];
    assert multiset(s[..|s| - 1]) == multiset(s) - multiset{v};
    assert multiset(t[..i] + t[i + 1..]) == multiset(t) - multiset{v};
  }

  lemma BucketWithout(t: seq<Word>, i: nat, k: nat, d: nat)
    requires i < |t| && k < 4
    ensures |Bucket(t, k, d)| == |Bucket(t[..i] + t[i + 1..], k, d)| + if Digit(t[i], k) == d then 1 else 0
  {
    hide Digit, Bucket;
    assert t == t[..i] + [t[i]] + t[i + 1..];
    BucketConcat(t[..i], t[i + 1..], k, d);
    BucketConcat(t[..i] + [t[i]], t[i + 1..], k, d);
    BucketNext(t[..i], t[i], k, d);
  }

  /** How many numbers a bucket holds does not depend on their order. */
  lemma {:induction false} BucketSize(s: seq<Word>, t: seq<Word>, k: nat, d: nat)
    requires k < 4 && multiset(s) == multiset(t)
    ensures |Bucket(s, k, d)| == |Bucket(t, k, d)|
  {
    hide Digit, Bucket;
    if s != [] {
      var i := WithoutOne(s, t);
      var n := |s| - 1;
      BucketSize(s[..n], t[..i] + t[i + 1..], k, d);
      BucketWithout(t, i, k, d);
      BucketNext(s[..n], s[n], k, d);
      assert s == s[..n] + [s[n]];
    } else {
      assert |multiset(t)| == 0 && |t| == |multiset(t)|;
      assert t == s;
    }
  }

  lemma {:induction false} UptoSize(s: seq<Word>, t: seq<Word>, k: nat, n: nat)
    requires k < 4 && n <= 256 && multiset(s) == multiset(t)
    ensures |Upto(s, k, n)| == |Upto(t, k, n)|
  {
    hide Bucket;
    if n > 0 {
      UptoSize(s, t, k, n - 1);
      BucketSize(s, t, k, n - 1);
    }
  }

  /** The totals of a column stay right for the numbers in any order: one counting sweep serves all
      the passes. */
  lemma TotalsServe(counts: seq<Word>, was: seq<Word>, columns: nat, k: nat, s: seq<Word>, t: seq<Word>)
    requires SameColumn(counts, was, columns, k) && Summed(was, columns, k, s, 255)
    requires multiset(s) == multiset(t)
    ensures Summed(counts, columns, k, t, 255)
  {
    hide Bucket, Upto;
    forall n | 0 <= n <= 256 ensures |Upto(s, k, n)| == |Upto(t, k, n)| {
      UptoSize(s, t, k, n);
    }
  }

  /** Sort 32-bit numbers. The destination may be the source itself. */
  method RadixSort32(dest: array<Word>, src: array<Word>, buffer: array<Word>, length: Word)
    requires length <= dest.Length && length <= src.Length && length <= buffer.Length
    requires buffer != dest && buffer != src
    modifies dest, buffer
    ensures Sorted(dest[..length]) && multiset(dest[..length]) == multiset(old(src[..length]))
    ensures dest[length..] == old(dest[length..])
  {
    hide Pass, Summed, Shape, SameColumn;
    ghost var s := src[..length];
    FourPassesSort(s);
    var counts := CountAll(src, length, 4);
    ghost var c := counts[..];
    ScatterPass(src, buffer, length, counts, 4, 0);
    forall k | 1 <= k < 4 ensures Summed(counts[..], 4, k, buffer[..length], 255) {
      TotalsServe(counts[..], c, 4, k, s, buffer[..length]);
    }
    c := counts[..];
    ScatterPass(buffer, dest, length, counts, 4, 1);
    forall k | 2 <= k < 4 ensures Summed(counts[..], 4, k, dest[..length], 255) {
      TotalsServe(counts[..], c, 4, k, buffer[..length], dest[..length]);
    }
    c := counts[..];
    ghost var b := dest[..length];
    ScatterPass(dest, buffer, length, counts, 4, 2);
    TotalsServe(counts[..], c, 4, 3, b, buffer[..length]);
    ScatterPass(buffer, dest, length, counts, 4, 3);
  }

  /** Sort 16-bit numbers. The destination may be the source itself. */
  method RadixSort16(dest: array<Word>, src: array<Word>, buffer: array<Word>, length: Word)
    requires length <= dest.Length && length <= src.Length && length <= buffer.Length
    requires buffer != dest && buffer != src
    requires forall i :: 0 <= i < length ==> src[i] < 0x1_0000
    modifies dest, buffer
    ensures Sorted(dest[..length]) && multiset(dest[..length]) == multiset(old(src[..length]))
    ensures dest[length..] == old(dest[length..])
  {
    hide Pass, Summed, Shape, SameColumn;
    ghost var s := src[..length];
    TwoPassesSort(s);
    var counts := CountAll(src, length, 2);
    ghost var c := counts[..];
    ScatterPass(src, buffer, length, counts, 2, 0);
    TotalsServe(counts[..], c, 2, 1, s, buffer[..length]);
    ScatterPass(buffer, dest, length, counts, 2, 1);
    NarrowSorted(s, dest[..length]);
  }

  /** For 16-bit numbers the two low bytes are all there is. */
  lemma NarrowSorted(s: seq<Word>, t: seq<Word>)
    requires forall i :: 0 <= i < |s| ==> s[i] < 0x1_0000
    requires SortedLow(t, 2) && multiset(t) == multiset(s)
    ensures Sorted(t)
  {
    forall i | 0 <= i < |t| ensures t[i] < 0x1_0000 {
      assert t[i] in multiset(t);
      assert t[i] in s;
    }
  }
}
