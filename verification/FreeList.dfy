/** The index pool behind every node store: slots are handed out and taken back by index. */
module FreeLists {

  /** The capacity after growth: doubled up to 2^14 slots, a quarter more beyond. */
  function GrownCap(cap: nat): (r: nat)
    requires 0 < cap
    ensures cap < r
  {
    if cap <= 16384 then 2 * cap else cap * 5 / 4
  }

  /** The numbers below `n`. */
  ghost function Below(n: nat): (s: set<nat>)
    ensures forall i: nat :: i in s <==> i < n
    ensures |s| == n
  {
    if n == 0 then {} else Below(n - 1) + {n - 1}
  }

  ghost function Elements(s: seq<nat>): (r: set<nat>)
    ensures forall x :: x in r <==> x in s
  {
    set x | x in s
  }

  ghost predicate Distinct(s: seq<nat>) {
    forall i, j :: 0 <= i < j < |s| ==> s[i] != s[j]
  }

  lemma {:induction false} DistinctCount(s: seq<nat>)
    requires Distinct(s)
    ensures |Elements(s)| == |s|
  {
    if s != [] {
      var n := |s| - 1;
      DistinctCount(s[..n]);
      assert Elements(s) == Elements(s[..n]) + {s[n]};
    }
  }

  lemma DistinctAppend(s: seq<nat>, x: nat)
    requires Distinct(s) && forall i :: 0 <= i < |s| ==> s[i] != x
    ensures Distinct(s + [x])
  {
  }

  class FreeList<T> {
    var data: seq<T>
    /** A stack of free slot numbers, of which the first `free` entries are in use. */
    var indices: seq<nat>
    var cap: nat
    var free: nat
    /** The slots handed out and not taken back, with what they hold. */
    ghost var live: map<nat, T>

    ghost predicate Valid()
      reads this
    {
      && 0 < cap && |data| == cap && |indices| == cap && free <= cap
      && Distinct(indices[..free])
      && (forall i :: 0 <= i < free ==> indices[i] < cap && indices[i] !in live)
      && (forall n :: n in live ==> n < cap && data[n] == live[n])
      && free + |live| == cap
    }

    constructor (defaultCap: nat, zero: T)
      requires 0 < defaultCap
      ensures Valid() && live == map[] && cap == defaultCap
    {
      cap := defaultCap;
      data := seq(defaultCap, i => zero);
      indices := seq(defaultCap, i => 0);
      free := defaultCap;
      live := map[];
      new;
      for i := 0 to cap
        invariant |indices| == cap == free == defaultCap && |data| == cap && live == map[]
        invariant forall j :: 0 <= j < i ==> indices[j] == j
      {
        indices := indices[i := i];
      }
    }

    /** Enlarge the pool when it is exhausted; the new slots become the free stack. */
    method MaybeGrow(zero: T)
      requires Valid()
      modifies this
      ensures Valid() && live == old(live) && 0 < free
      ensures old(free) > 0 ==> cap == old(cap) && indices == old(indices) && free == old(free)
      ensures old(free) == 0 ==> cap == (if old(cap) <= 16384 then old(cap) + old(cap) else old(cap) + old(cap) / 4)
      ensures old(free) == 0 ==> free == cap - old(cap)
      ensures old(free) == 0 ==> forall i :: 0 <= i < free ==> indices[i] == old(cap) + i
    {
      if free == 0 {
        var lastCap := cap;
        cap := GrownCap(cap);
        var added := cap - lastCap;
        data := data + seq(added, i => zero);
        indices := indices + seq(added, i => 0);
        for i := lastCap to cap
          invariant |indices| == cap == lastCap + added && free == 0 && live == old(live)
          invariant |data| == cap && data[..lastCap] == old(data)
          invariant forall j :: 0 <= j < i - lastCap ==> indices[j] == lastCap + j
        {
          indices := indices[i - lastCap := i];
        }
        free := added;
      }
    }

    method Insert(elem: T) returns (idx: nat)
      requires Valid()
      modifies this
      ensures Valid()
      ensures idx !in old(live) && live == old(live)[idx := elem]
    {
      MaybeGrow(elem);
      free := free - 1;
      idx := indices[free];
      data := data[idx := elem];
      live := live[idx := elem];
    }

    method Read(idx: nat) returns (elem: T)
      requires Valid() && idx in live
      ensures elem == live[idx]
    {
      elem := data[idx];
    }

    /** Overwrite a live slot in place. */
    method Write(idx: nat, elem: T)
      requires Valid() && idx in live
      modifies this
      ensures Valid()
      ensures live == old(live)[idx := elem]
    {
      data := data[idx := elem];
      live := live[idx := elem];
    }

    method Remove(idx: nat)
      requires Valid() && idx in live
      modifies this
      ensures Valid()
      ensures live == old(live) - {idx}
    {
      assert live == (live - {idx})[idx := live[idx]];
      DistinctAppend(indices[..free], idx);
      assert indices[free := idx][..free + 1] == indices[..free] + [idx];
      indices := indices[free := idx];
      free := free + 1;
      live := live - {idx};
    }

    /** The free stack and the live slots partition the pool: nothing leaks and nothing is free twice. */
    lemma Partition()
      requires Valid()
      ensures Distinct(indices[..free])
      ensures Elements(indices[..free]) !! live.Keys
      ensures Elements(indices[..free]) + live.Keys == Below(cap)
    {
      var f := Elements(indices[..free]);
      DistinctCount(indices[..free]);
      assert f + live.Keys <= Below(cap);
      assert |f + live.Keys| == |f| + |live.Keys|;
      SubsetFull(f + live.Keys, Below(cap));
    }
  }

  lemma SubsetFull(a: set<nat>, b: set<nat>)
    requires a <= b && |a| == |b|
    ensures a == b
  {
    assert |b - a| == |b| - |a|;
  }
}
