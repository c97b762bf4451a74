/** What the cleanup scan of the priority scheduler leaves in the heap. Removal moves entries about, so an
    entry not yet looked at can land behind the scan. */
module CleanupScans {
  import opened PriorityHeaps

  /** The scan over a heap, when whether a job is finished does not change meanwhile: an entry of
      `fin` is removed and its place looked at again. */
  ghost function Scan(s: seq<Node>, i: nat, fin: set<nat>): seq<Node>
    requires i <= |s|
    decreases |s|, |s| - i
  {
    if i == |s| then s
    else if s[i].elem in fin then Scan(Without(s, i), i, fin)
    else Scan(s, i + 1, fin)
  }

  /** The scan when every test may find something else: `done(n, e)` tells whether the `n`-th test finds
      the job in slot `e` finished. */
  ghost function ScanBy(s: seq<Node>, i: nat, n: nat, done: (nat, nat) -> bool): seq<Node>
    requires i <= |s|
    decreases |s|, |s| - i
  {
    if i == |s| then s
    else if done(n, s[i].elem) then ScanBy(Without(s, i), i, n + 1, done)
    else ScanBy(s, i + 1, n + 1, done)
  }

  /** The slots it tests, in order. */
  ghost function TestsBy(s: seq<Node>, i: nat, n: nat, done: (nat, nat) -> bool): seq<nat>
    requires i <= |s|
    decreases |s|, |s| - i
  {
    if i == |s| then []
    else if done(n, s[i].elem) then [s[i].elem] + TestsBy(Without(s, i), i, n + 1, done)
    else [s[i].elem] + TestsBy(s, i + 1, n + 1, done)
  }

  lemma {:induction false} ScanByStable(s: seq<Node>, i: nat, n: nat, done: (nat, nat) -> bool, fin: set<nat>)
    requires i <= |s| && forall m: nat, e: nat :: done(m, e) <==> e in fin
    ensures ScanBy(s, i, n, done) == Scan(s, i, fin)
    decreases |s|, |s| - i
  {
    hide Without;
    if i < |s| {
      if s[i].elem in fin {
        ScanByStable(Without(s, i), i, n + 1, done, fin);
      } else {
        ScanByStable(s, i + 1, n + 1, done, fin);
      }
    }
  }

  /** No two entries share an element, and none has the highest priority there is. */
  ghost predicate Apart(s: seq<Node>) {
    && (forall x :: 0 <= x < |s| ==> s[x].priority < MAX)
    && (forall x, y :: 0 <= x < y < |s| ==> s[x].elem != s[y].elem)
  }

  // ------------------------------------------------------------------
  // Places above one another
  // ------------------------------------------------------------------

  /** `x` is `i` or above it. */
  ghost predicate Above(x: nat, i: nat)
    decreases i
  {
    x == i || (x < i && Above(x, Parent(i)))
  }

  /** The child of `p` on the way to `i`. */
  ghost function Toward(p: nat, i: nat): (c: nat)
    requires Above(p, i) && p < i
    ensures p < c <= i && Parent(c) == p && Above(c, i)
    decreases i
  {
    if Parent(i) == p then i else Toward(p, Parent(i))
  }

  lemma AboveBound(x: nat, i: nat)
    ensures Above(x, i) ==> x <= i
    ensures Above(x, i) && x != i ==> x <= Parent(i)
  {
    assert x < i && Above(x, i) ==> Above(x, Parent(i));
  }

  lemma {:induction false} RootAbove(i: nat)
    ensures Above(0, i)
  {
    if i > 0 {
      RootAbove(Parent(i));
    }
  }

  /** What is above has the higher priority. */
  lemma {:induction false} AboveIsHigher(s: seq<Node>, x: nat, i: nat)
    requires Ordered(s) && i < |s| && Above(x, i)
    ensures s[x].priority >= s[i].priority
    decreases i
  {
    if x < i {
      AboveIsHigher(s, x, Parent(i));
    }
  }

  /** Only one child is on the way. */
  lemma {:induction false} Siblings(c: nat, d: nat, i: nat)
    requires 0 < c && 0 < d && Parent(c) == Parent(d) && Above(c, i) && Above(d, i)
    ensures c == d
    decreases i
  {
    if c < i && d < i {
      Siblings(c, d, Parent(i));
    }
    assert c < i ==> c <= Parent(i);
    assert d < i ==> d <= Parent(i);
  }

  // ------------------------------------------------------------------
  // Where sinking puts the entries
  // ------------------------------------------------------------------

  /** The other child of the same parent. */
  function Sibling(x: nat): nat
    requires 0 < x
  {
    if x % 2 == 1 then x + 1 else x - 1
  }

  /** Sinking takes this child rather than its sibling: of two like ones the left. */
  ghost predicate Favourite(t: seq<Node>, x: nat)
    requires 0 < x < |t|
  {
    Sibling(x) < |t| ==>
      if x % 2 == 1 then t[Sibling(x)].priority <= t[x].priority else t[Sibling(x)].priority < t[x].priority
  }

  /** The entry at `p`, sinking, gets as far as `x`: every place on the way from `p` to `x` is higher
      than it, and the favourite of its parent. */
  ghost predicate Reached(t: seq<Node>, p: nat, x: nat)
    requires p < |t| && x < |t|
    decreases x
  {
    x == p || (p < x && t[x].priority > t[p].priority && Favourite(t, x) && Reached(t, p, Parent(x)))
  }

  /** The place whose entry is at `x` after the entry at `p` sank: a reached place gets that of its reached
      child, or what sank if there is none. */
  ghost function From(t: seq<Node>, p: nat, x: nat): (y: nat)
    requires p < |t| && x < |t|
    ensures y < |t| && (y == p || x <= y)
  {
    if !Reached(t, p, x) then x
    else if Left(x) < |t| && Reached(t, p, Left(x)) then Left(x)
    else if Right(x) < |t| && Reached(t, p, Right(x)) then Right(x)
    else p
  }

  lemma {:induction false} StaysPut(t: seq<Node>, p: nat, x: nat)
    requires p < |t| && x < |t| && Largest(t, p) == p
    ensures Reached(t, p, x) ==> x == p
    decreases x
  {
    if p < x {
      StaysPut(t, p, Parent(x));
      assert Parent(x) == p ==> x == Left(p) || x == Right(p);
    }
  }

  lemma LargestIsFavourite(t: seq<Node>, p: nat, x: nat)
    requires p < x < |t| && Parent(x) == p
    ensures Largest(t, p) == x <==> t[x].priority > t[p].priority && Favourite(t, x)
  {
    assert x == Left(p) || x == Right(p);
  }

  /** After one step the places yet to be reached are the same. */
  lemma {:induction false} ReachedOn(t: seq<Node>, p: nat, x: nat)
    requires p < |t| && x < |t| && Largest(t, p) != p
    ensures Reached(t, p, x) <==> x == p || Reached(Swapped(t, p, Largest(t, p)), Largest(t, p), x)
    decreases x
  {
    hide Largest;
    var j := Largest(t, p);
    var u := Swapped(t, p, j);
    assert Parent(j) == p;
    if p < x {
      ReachedOn(t, p, Parent(x));
      if Parent(x) == p {
        LargestIsFavourite(t, p, x);
      } else {
        assert Parent(Sibling(x)) == Parent(x);
        assert p < Parent(x) ==> u[x] == t[x] && (Sibling(x) < |t| ==> u[Sibling(x)] == t[Sibling(x)]);
      }
    }
  }

  lemma {:induction false} Sinks(t: seq<Node>, p: nat, x: nat)
    requires p < |t| && x < |t|
    ensures Down(t, p)[x] == t[From(t, p, x)]
    decreases |t| - p
  {
    hide Reached, Largest;
    var j := Largest(t, p);
    if j == p {
      SinksNot(t, p, x);
    } else {
      var u := Swapped(t, p, j);
      Sinks(u, j, x);
      FromOn(t, p, x);
    }
  }

  lemma SinksNot(t: seq<Node>, p: nat, x: nat)
    requires p < |t| && x < |t| && Largest(t, p) == p
    ensures From(t, p, x) == x
  {
    hide Largest;
    StaysPut(t, p, x);
    if x == p && Left(p) < |t| {
      StaysPut(t, p, Left(p));
    }
    if x == p && Right(p) < |t| {
      StaysPut(t, p, Right(p));
    }
  }

  lemma FromOn(t: seq<Node>, p: nat, x: nat)
    requires p < |t| && x < |t| && Largest(t, p) != p
    ensures Swapped(t, p, Largest(t, p))[From(Swapped(t, p, Largest(t, p)), Largest(t, p), x)] == t[From(t, p, x)]
  {
    hide Largest, Favourite;
    var j := Largest(t, p);
    var u := Swapped(t, p, j);
    ReachedOn(t, p, x);
    ReachedOn(t, p, j);
    if Left(x) < |t| {
      ReachedOn(t, p, Left(x));
    }
    if Right(x) < |t| {
      ReachedOn(t, p, Right(x));
    }
  }

  /** The places reached lie on one way down. */
  lemma {:induction false} OneWay(t: seq<Node>, x: nat, y: nat)
    requires x <= y < |t| && Reached(t, 0, x) && Reached(t, 0, y)
    ensures Above(x, y)
    decreases x + y
  {
    if x == 0 {
      RootAbove(y);
    } else if x < y {
      var p, q := Parent(x), Parent(y);
      if x <= q {
        OneWay(t, x, q);
      } else if q < x {
        OneWay(t, q, x);
        AboveBound(q, x);
      }
    }
  }

  /** A place above a reached one has a reached child. */
  lemma {:induction false} WayOn(t: seq<Node>, x: nat, y: nat)
    requires x < y < |t| && Reached(t, 0, y) && Above(x, y)
    ensures From(t, 0, x) != 0 && Reached(t, 0, x)
    decreases y
  {
    hide Favourite;
    if Parent(y) == x {
      assert y == Left(x) || y == Right(x);
    } else {
      AboveBound(x, y);
      WayOn(t, x, Parent(y));
    }
  }

  /** What sinks comes to rest. */
  lemma {:induction false} Lands(t: seq<Node>, x: nat) returns (z: nat)
    requires x < |t| && Reached(t, 0, x)
    ensures z < |t| && Reached(t, 0, z) && From(t, 0, z) == 0
    decreases |t| - x
  {
    var y := From(t, 0, x);
    z := x;
    if y != 0 {
      z := Lands(t, y);
    }
  }

  // ------------------------------------------------------------------
  // Where one removal puts the entries
  // ------------------------------------------------------------------

  /** Entry `i`, higher than all others, rises to the root and pushes the path to it down by one. */
  lemma {:induction false} UpPushes(s: seq<Node>, i: nat, x: nat)
    requires i < |s| && x < |s| && forall j :: 0 <= j < |s| && j != i ==> s[j].priority < s[i].priority
    ensures Up(s, i)[x] == if x == 0 then s[i] else if Above(x, i) then s[Parent(x)] else s[x]
    decreases i
  {
    if i > 0 {
      var p := Parent(i);
      UpPushes(Swapped(s, i, p), p, x);
      assert x == i ==> !Above(x, p);
      assert Above(x, i) <==> x == i || Above(x, p);
      assert Above(x, p) ==> x <= p;
    } else {
      assert Above(x, 0) ==> x == 0;
    }
  }

  /** Where the entry at `x` was before, when entry `i` of `n` has risen and is gone and the last entry is at
      the root: the way to `i` is pushed down by one. */
  ghost function Source(n: nat, i: nat, x: nat): (y: nat)
    requires i < n && x + 1 < n
    ensures y < n
  {
    if x == 0 then (if i == n - 1 then Parent(i) else n - 1) else if Above(x, i) then Parent(x) else x
  }

  /** The heap just before the entry at the root sinks. */
  ghost function Pushed(s: seq<Node>, i: nat): (t: seq<Node>)
    requires i < |s|
    ensures |t| == |s| - 1
    ensures forall x :: 0 <= x < |t| ==> t[x] == s[Source(|s|, i, x)]
  {
    seq<Node>(|s| - 1, x requires 0 <= x < |s| - 1 => s[Source(|s|, i, x)])
  }

  lemma RemovalStarts(s: seq<Node>, i: nat)
    requires Apart(s) && i < |s| && 1 < |s|
    ensures Without(s, i) == Down(Pushed(s, i), 0)
  {
    hide Down;
    var n := |s| - 1;
    var r := s[i := s[i].(priority := MAX)];
    var u := Up(r, i);
    forall x | 0 <= x < |s|
      ensures u[x] == if x == 0 then r[i] else if Above(x, i) then r[Parent(x)] else r[x]
      ensures 0 < x && Above(x, i) ==> r[Parent(x)] == s[Parent(x)]
      ensures x == n && Above(x, i) ==> i == n
    {
      UpPushes(r, i, x);
      assert Above(x, i) ==> x <= i;
    }
    var t := Swapped(u, 0, n)[..n];
    assert forall x :: 0 < x < n ==> !Above(x, i) ==> x != i;
    assert t == Pushed(s, i);
  }

  /** The place of the heap whose entry is at `x` after entry `i` is removed. */
  ghost function Origin(s: seq<Node>, i: nat, x: nat): (y: nat)
    requires i < |s| && x + 1 < |s|
    ensures y < |s|
  {
    Source(|s|, i, From(Pushed(s, i), 0, x))
  }

  lemma WithoutPlaces(s: seq<Node>, i: nat, x: nat)
    requires Apart(s) && i < |s| && x + 1 < |s|
    ensures Without(s, i)[x] == s[Origin(s, i, x)]
  {
    hide Down, Without, From, Source;
    RemovalStarts(s, i);
    Sinks(Pushed(s, i), 0, x);
  }

  /** The last entry, sinking from the root, reaches place `x`. */
  ghost predicate Passes(s: seq<Node>, i: nat, x: nat)
    requires i < |s| && x + 1 < |s|
  {
    Reached(Pushed(s, i), 0, x)
  }

  /** The last entry comes to rest behind the scan: it reaches neither `i` nor a place after it. */
  ghost predicate Overtakes(s: seq<Node>, i: nat)
    requires i < |s|
  {
    0 < i < |s| - 1 && forall x :: i <= x < |s| - 1 ==> !Passes(s, i, x)
  }

  /** Removing entry `i` puts a finished entry behind the scan: one further on rises to a place before
      `i`, or the last one comes to rest there. */
  ghost predicate Slips(s: seq<Node>, i: nat, fin: set<nat>)
    requires i < |s|
  {
    || (exists y :: i < y < |s| - 1 && s[y].elem in fin && Parent(y) < i && Passes(s, i, y))
    || (s[|s| - 1].elem in fin && Overtakes(s, i))
  }

  /** Where an entry that gets behind the scan is from. */
  lemma BehindFrom(s: seq<Node>, i: nat, x: nat)
    requires x < i < |s| - 1
    ensures var y := Origin(s, i, x);
            || y < i
            || (i < y < |s| - 1 && Parent(y) == x && Passes(s, i, y))
            || (y == |s| - 1 && Overtakes(s, i))
  {
    hide Reached;
    var t := Pushed(s, i);
    var z := From(t, 0, x);
    AboveBound(z, i);
    if z == 0 {
      forall y | i <= y < |t| ensures !Reached(t, 0, y) {
        if Reached(t, 0, y) {
          RestsThere(t, x);
          OneWay(t, x, y);
          WayOn(t, x, y);
        }
      }
    }
  }

  lemma RestsThere(t: seq<Node>, x: nat)
    requires x < |t| && From(t, 0, x) == 0
    ensures Reached(t, 0, x)
  {
  }

  /** An entry that rises goes to its parent's place. */
  lemma RisesTo(s: seq<Node>, i: nat, y: nat)
    requires 0 < i < y < |s| - 1 && Passes(s, i, y)
    ensures Origin(s, i, Parent(y)) == y
  {
    hide Favourite;
    var t, x := Pushed(s, i), Parent(y);
    AboveBound(y, i);
    assert y == Left(x) || y == Right(x);
    assert Reached(t, 0, x);
    if y == Right(x) && Reached(t, 0, Left(x)) {
      OneWay(t, Left(x), y);
      AboveBound(Left(x), y);
      assert false;
    }
  }

  /** For every heap, ties or not: a removal leaves a finished entry behind the scan if and only if one
      slips. */
  lemma SlipsExactly(s: seq<Node>, i: nat, fin: set<nat>)
    requires Apart(s) && i < |s| && NoneFinished(s[..i], fin)
    ensures NoneFinished(Without(s, i)[..i], fin) <==> !Slips(s, i, fin)
  {
    hide Without, Apart, Reached, Origin;
    var t, n := Without(s, i), |s| - 1;
    assert forall x :: 0 <= x < i ==> s[..i][x] == s[x];
    forall x | 0 <= x < i && !Slips(s, i, fin) ensures t[x].elem !in fin {
      WithoutPlaces(s, i, x);
      if i < n {
        BehindFrom(s, i, x);
      } else {
        LastFrom(s, x);
      }
    }
    if Slips(s, i, fin) {
      var x := SlippedTo(s, i, fin);
      assert t[..i][x] == t[x];
    }
  }

  /** Removing the last entry moves only entries before it. */
  lemma LastFrom(s: seq<Node>, x: nat)
    requires x + 1 < |s|
    ensures Origin(s, |s| - 1, x) < |s| - 1
  {
  }

  lemma SlippedTo(s: seq<Node>, i: nat, fin: set<nat>) returns (x: nat)
    requires Apart(s) && i < |s| && Slips(s, i, fin)
    ensures 0 < i < |s| - 1 && x < i && Without(s, i)[x].elem in fin
  {
    hide Without, Apart, Origin;
    if y :| i < y < |s| - 1 && s[y].elem in fin && Parent(y) < i && Passes(s, i, y) {
      x := Parent(y);
      RisesTo(s, i, y);
    } else {
      x := OvertakerRests(s, i);
    }
    WithoutPlaces(s, i, x);
  }

  lemma RestIsLast(s: seq<Node>, i: nat, x: nat)
    requires i < |s| - 1 && x < |s| - 1 && From(Pushed(s, i), 0, x) == 0
    ensures Origin(s, i, x) == |s| - 1
  {
  }

  /** One removal moves the last entry behind the scan exactly when it overtakes. */
  lemma OvertakesExactly(s: seq<Node>, i: nat)
    requires Apart(s) && i < |s|
    ensures (exists x :: 0 <= x < i && Without(s, i)[x] == s[|s| - 1]) <==> Overtakes(s, i)
  {
    hide Without, Overtakes, Origin, Apart, Passes;
    var n := |s| - 1;
    if x :| 0 <= x < i && Without(s, i)[x] == s[n] {
      WithoutPlaces(s, i, x);
      OneEntry(s, Origin(s, i, x), n);
      if i < n {
        BehindFrom(s, i, x);
      } else {
        LastFrom(s, x);
      }
    }
    if Overtakes(s, i) {
      var x := OvertakerRests(s, i);
    }
  }

  lemma OneEntry(s: seq<Node>, x: nat, y: nat)
    requires Apart(s) && x < |s| && y < |s| && s[x] == s[y]
    ensures x == y
  {
  }

  lemma OvertakerRests(s: seq<Node>, i: nat) returns (x: nat)
    requires Apart(s) && i < |s| && Overtakes(s, i)
    ensures 0 < i < |s| - 1 && x < i && Without(s, i)[x] == s[|s| - 1]
  {
    hide Without, Origin, Apart;
    x := Lands(Pushed(s, i), 0);
    assert Passes(s, i, x);
    RestIsLast(s, i, x);
    WithoutPlaces(s, i, x);
  }

  // ------------------------------------------------------------------
  // Without ties the last entry follows the way to `i`
  // ------------------------------------------------------------------

  /** No two of these entries share a priority. */
  ghost predicate Untied(s: seq<Node>) {
    forall x, y :: 0 <= x < y < |s| ==> s[x].priority != s[y].priority
  }

  lemma BesideWay(s: seq<Node>, i: nat, d: nat)
    requires i < |s| && Ordered(s) && Untied(s[..i]) && 0 < d < |s| && !Above(d, i) && Parent(d) < i
    ensures s[d].priority <= s[Parent(d)].priority
    ensures d < i ==> s[d].priority < s[Parent(d)].priority
  {
    assert d < i ==> s[..i][d] == s[d] && s[..i][Parent(d)] == s[Parent(d)];
  }

  lemma OneOfTwo(i: nat, y: nat)
    requires 0 < y && Parent(y) < i && Above(Parent(y), i)
    ensures 0 < Sibling(y) && Parent(Sibling(y)) == Parent(y) && Sibling(Sibling(y)) == y
    ensures Above(y, i) <==> !Above(Sibling(y), i)
    ensures Above(y, i) ==> y <= i
  {
    var c := Toward(Parent(y), i);
    assert c == y || c == Sibling(y);
    AboveBound(y, i);
    if Above(y, i) && Above(Sibling(y), i) {
      Siblings(y, Sibling(y), i);
    }
  }

  /** Of the two children of a place on the way to `i`, the one on the way is taken. */
  lemma WayTaken(s: seq<Node>, i: nat, y: nat)
    requires 0 < i < |s| - 1 && Ordered(s) && Untied(s[..i]) && 0 < y < |s| - 1
    requires Parent(y) < i && Above(Parent(y), i)
    ensures Favourite(Pushed(s, i), y) <==> Above(y, i)
  {
    hide Ordered, Untied, Above;
    var d := Sibling(y);
    OneOfTwo(i, y);
    OneOfTwo(i, d);
    if Above(y, i) {
      if d < |s| {
        BesideWay(s, i, d);
      }
    } else {
      BesideWay(s, i, y);
    }
  }

  lemma {:induction false} StaysOnWay(s: seq<Node>, i: nat, y: nat)
    requires 0 < i < |s| - 1 && Ordered(s) && Untied(s[..i]) && y < |s| - 1 && Passes(s, i, y)
    ensures y <= i ==> Above(y, i)
    ensures i < y ==> i <= Parent(y)
    ensures i <= y ==> Passes(s, i, i)
    decreases y
  {
    hide Ordered, Untied, Favourite, Pushed;
    if y == 0 {
      RootAbove(i);
    } else {
      StaysOnWay(s, i, Parent(y));
      if Parent(y) < i {
        WayTaken(s, i, y);
        AboveBound(y, i);
      }
    }
  }

  lemma {:induction false} GoesToEnd(s: seq<Node>, i: nat, y: nat)
    requires 0 < i < |s| - 1 && Ordered(s) && Untied(s[..i]) && Above(y, i)
    requires s[|s| - 1].priority < s[Parent(i)].priority
    ensures y < |s| - 1 && Passes(s, i, y)
    decreases y
  {
    hide Untied, Favourite;
    AboveBound(y, i);
    if y > 0 {
      ParentAbove(y, i);
      GoesToEnd(s, i, Parent(y));
      WayTaken(s, i, y);
      AboveIsHigher(s, Parent(y), Parent(i));
    }
  }

  lemma {:induction false} ParentAbove(y: nat, i: nat)
    requires 0 < y && Above(y, i)
    ensures Above(Parent(y), i) && Above(Parent(y), Parent(i))
    decreases i
  {
    AboveBound(y, i);
    if y < i {
      ParentAbove(y, Parent(i));
    }
  }

  /** When no two entries before `i` tie, nothing rises past the scan, and the last entry overtakes it
      exactly when it is not lower than the parent of `i`. */
  lemma UntiedSlips(s: seq<Node>, i: nat)
    requires i < |s| && Ordered(s) && Untied(s[..i])
    ensures Overtakes(s, i) <==> 0 < i < |s| - 1 && s[|s| - 1].priority >= s[Parent(i)].priority
    ensures forall y :: i < y < |s| - 1 && Passes(s, i, y) && 0 < i ==> i <= Parent(y)
  {
    hide Ordered, Untied, Reached;
    if 0 < i < |s| - 1 {
      forall y | i <= y < |s| - 1 && Passes(s, i, y) ensures Passes(s, i, i) && (i < y ==> i <= Parent(y)) {
        StaysOnWay(s, i, y);
      }
      if s[|s| - 1].priority < s[Parent(i)].priority {
        GoesToEnd(s, i, i);
      } else {
        NotReached(s, i);
      }
    }
  }

  lemma NotReached(s: seq<Node>, i: nat)
    requires 0 < i < |s| - 1 && s[|s| - 1].priority >= s[Parent(i)].priority
    ensures !Passes(s, i, i)
  {
  }

  // ------------------------------------------------------------------
  // Removal keeps order and distinctness
  // ------------------------------------------------------------------

  lemma {:induction false} UpOrdered(s: seq<Node>, i: nat)
    requires i < |s| && OrderedButUp(s, i)
    ensures Ordered(Up(s, i)) && multiset(Up(s, i)) == multiset(s)
    decreases i
  {
    if i > 0 && s[i].priority > s[Parent(i)].priority {
      RiseStep(s, i);
      SwapPermutes(s, i, Parent(i));
      UpOrdered(Swapped(s, i, Parent(i)), Parent(i));
    }
  }

  lemma {:induction false} DownOrdered(s: seq<Node>, i: nat)
    requires OrderedButDown(s, i)
    ensures Ordered(Down(s, i)) && multiset(Down(s, i)) == multiset(s)
    decreases |s| - i
  {
    hide Ordered, OrderedButDown, Swapped;
    SinkOn(s, i);
    if i < |s| && Largest(s, i) != i {
      SwapPermutes(s, i, Largest(s, i));
      DownOrdered(Swapped(s, i, Largest(s, i)), Largest(s, i));
    }
  }

  lemma ExtractedOrdered(u: seq<Node>)
    requires u != [] && Ordered(u)
    ensures Ordered(Extracted(u)) && multiset(Extracted(u)) == multiset(u) - multiset{u[0]}
  {
    hide Ordered, OrderedButDown, Down;
    LastToRoot(u);
    DownOrdered(Swapped(u, 0, |u| - 1)[..|u| - 1], 0);
  }

  lemma WithoutOrdered(s: seq<Node>, i: nat)
    requires Ordered(s) && Apart(s) && i < |s|
    ensures Ordered(Without(s, i)) && multiset(Without(s, i)) == multiset(s) - multiset{s[i]}
  {
    hide Ordered, OrderedButUp, Apart, Up, Extracted;
    var t := s[i := s[i].(priority := MAX)];
    RaisedRises(s, i);
    UpOrdered(t, i);
    UpTop(s, i);
    ExtractedOrdered(Up(t, i));
    RaisedMultiset(s, i);
    TakenBack(multiset(s) - multiset{s[i]}, t[i]);
  }

  lemma TakenBack(m: multiset<Node>, x: Node)
    ensures m + multiset{x} - multiset{x} == m
  {
  }

  lemma UpTop(s: seq<Node>, i: nat)
    requires Apart(s) && i < |s|
    ensures Up(s[i := s[i].(priority := MAX)], i)[0] == s[i].(priority := MAX)
  {
    UpPushes(s[i := s[i].(priority := MAX)], i, 0);
  }

  lemma CountOne(s: seq<Node>, x: nat)
    requires Apart(s) && x < |s|
    ensures multiset(s)[s[x]] == 1
  {
    assert s == s[..x] + [s[x]] + s[x + 1..];
    assert s[x] !in s[..x] && s[x] !in s[x + 1..];
  }

  lemma CountTwo(t: seq<Node>, x: nat, y: nat)
    requires x < y < |t| && t[x] == t[y]
    ensures multiset(t)[t[x]] >= 2
  {
    assert t == t[..y] + [t[y]] + t[y + 1..];
    assert t[..y][x] == t[x];
  }

  /** Two places of a part are from two places of the whole. */
  lemma TwoPlaces(s: seq<Node>, t: seq<Node>, x: nat, y: nat) returns (a: nat, b: nat)
    requires Apart(s) && multiset(t) <= multiset(s) && x < y < |t|
    ensures a < |s| && b < |s| && a != b && s[a] == t[x] && s[b] == t[y]
  {
    assert t[x] in multiset(t) && t[y] in multiset(t);
    a :| 0 <= a < |s| && s[a] == t[x];
    b :| 0 <= b < |s| && s[b] == t[y];
    if a == b {
      CountOne(s, a);
      CountTwo(t, x, y);
    }
  }

  /** No two unfinished entries share a priority. */
  ghost predicate UnfinishedUntied(s: seq<Node>, fin: set<nat>) {
    forall x, y :: 0 <= x < y < |s| && s[x].elem !in fin && s[y].elem !in fin ==> s[x].priority != s[y].priority
  }

  lemma PartKeeps(s: seq<Node>, t: seq<Node>, fin: set<nat>)
    requires Apart(s) && multiset(t) <= multiset(s)
    ensures Apart(t)
    ensures UnfinishedUntied(s, fin) ==> UnfinishedUntied(t, fin)
  {
    forall x | 0 <= x < |t| ensures t[x] in s {
      assert t[x] in multiset(t);
    }
    forall x, y | 0 <= x < y < |t|
      ensures t[x].elem != t[y].elem
      ensures UnfinishedUntied(s, fin) && t[x].elem !in fin && t[y].elem !in fin ==> t[x].priority != t[y].priority
    {
      var a, b := TwoPlaces(s, t, x, y);
      assert a < b || b < a;
    }
  }

  // ------------------------------------------------------------------
  // The whole scan
  // ------------------------------------------------------------------

  /** The finished jobs in the heap. */
  ghost function Present(s: seq<Node>, fin: set<nat>): set<nat> {
    set x | 0 <= x < |s| && s[x].elem in fin :: s[x].elem
  }

  ghost predicate NoneFinished(s: seq<Node>, fin: set<nat>) {
    forall x :: 0 <= x < |s| ==> s[x].elem !in fin
  }

  /** The finished entries among the last `c` are lower than every unfinished entry. */
  ghost predicate LowTail(s: seq<Node>, fin: set<nat>, c: nat) {
    forall x, y :: 0 <= x < |s| && s[x].elem !in fin && 0 <= y < |s| && |s| <= y + c && s[y].elem in fin
                   ==> s[y].priority < s[x].priority
  }

  /** The last `c` entries are unfinished, and none is lower than a finished one. */
  ghost predicate HighTail(s: seq<Node>, fin: set<nat>, c: nat) {
    forall x, y :: 0 <= x < |s| && |s| <= x + c && 0 <= y < |s|
                   ==> s[x].elem !in fin && (s[y].elem in fin ==> s[y].priority <= s[x].priority)
  }

  /** What the scan needs of the last `c` entries of a heap with one more finished job. */
  ghost predicate Guarded(s: seq<Node>, fin: set<nat>, c: nat) {
    (UnfinishedUntied(s, fin) && LowTail(s, fin, c)) || HighTail(s, fin, c)
  }

  lemma RemovalCounts(s: seq<Node>, i: nat, fin: set<nat>)
    requires Ordered(s) && Apart(s) && i < |s| && s[i].elem in fin
    ensures var t := Without(s, i);
            && Ordered(t) && Apart(t)
            && Present(t, fin) == Present(s, fin) - {s[i].elem}
            && |Present(t, fin)| == |Present(s, fin)| - 1
            && (UnfinishedUntied(s, fin) ==> UnfinishedUntied(t, fin))
  {
    hide Without, Ordered, UnfinishedUntied;
    var t := Without(s, i);
    WithoutOrdered(s, i);
    PartKeeps(s, t, fin);
    CountOne(s, i);
    forall n ensures n in t <==> n in s && n != s[i] {
      assert n in t <==> n in multiset(t);
      assert n in s <==> n in multiset(s);
    }
    forall e ensures e in Present(t, fin) <==> e in Present(s, fin) && e != s[i].elem {
      if e in Present(t, fin) {
        var x :| 0 <= x < |t| && t[x].elem == e;
        assert t[x] in t;
      }
      if e in Present(s, fin) && e != s[i].elem {
        var x :| 0 <= x < |s| && s[x].elem == e;
        assert s[x] in s && s[x] in t;
      }
    }
    assert s[i].elem in Present(s, fin);
  }

  /** The entries before `i` are unfinished, so they do not tie if no two unfinished ones do. */
  lemma PrefixUntied(s: seq<Node>, i: nat, fin: set<nat>)
    requires i <= |s| && NoneFinished(s[..i], fin) && UnfinishedUntied(s, fin)
    ensures Untied(s[..i])
  {
    assert forall x :: 0 <= x < i ==> s[..i][x] == s[x];
  }

  /** In a guarded heap nothing slips. */
  lemma NothingSlips(s: seq<Node>, i: nat, fin: set<nat>, c: nat)
    requires Ordered(s) && i < |s| && 0 < c && NoneFinished(s[..i], fin) && Guarded(s, fin, c)
    ensures !Slips(s, i, fin)
  {
    hide Untied, Ordered, UnfinishedUntied, Overtakes;
    var n := |s| - 1;
    if HighTail(s, fin, c) {
      forall y | i < y < n && s[y].elem in fin && Parent(y) < i ensures !Passes(s, i, y) {
        PassesHigher(s, i, y);
      }
    } else {
      PrefixUntied(s, i, fin);
      UntiedSlips(s, i);
      assert 0 < i ==> s[..i][Parent(i)] == s[Parent(i)];
    }
  }

  lemma PassesHigher(s: seq<Node>, i: nat, y: nat)
    requires i < y < |s| - 1
    ensures Passes(s, i, y) ==> s[y].priority > s[|s| - 1].priority
  {
    AboveBound(y, i);
  }

  /** Where an entry that is finished, or in the tail, is from. */
  lemma KeptFrom(s: seq<Node>, i: nat, x: nat)
    requires i < |s| && x + 1 < |s|
    ensures var y := Origin(s, i, x); y < i || x <= y
    ensures i < x ==> x <= Origin(s, i, x)
  {
    hide Reached;
    AboveBound(From(Pushed(s, i), 0, x), i);
  }

  /** A removal keeps the heap guarded. */
  lemma GuardKept(s: seq<Node>, i: nat, fin: set<nat>, c: nat)
    requires Apart(s) && i < |s| && s[i].elem in fin && 0 < c && NoneFinished(s[..i], fin)
    ensures LowTail(s, fin, c) ==> LowTail(Without(s, i), fin, c - 1)
    ensures HighTail(s, fin, c) ==> HighTail(Without(s, i), fin, c - 1)
  {
    hide Without, Apart, Origin;
    var t, n := Without(s, i), |s| - 1;
    assert forall x :: 0 <= x < i ==> s[..i][x] == s[x];
    forall x | 0 <= x < n
      ensures Origin(s, i, x) < |s| && t[x] == s[Origin(s, i, x)]
      ensures Origin(s, i, x) < i || x <= Origin(s, i, x)
      ensures i < x ==> x <= Origin(s, i, x)
    {
      WithoutPlaces(s, i, x);
      KeptFrom(s, i, x);
    }
  }

  /** For every heap, ties or not, take the last entries, one fewer than there are finished jobs. The scan
      drops every finished job if no two unfinished jobs tie and the finished ones among those entries are
      lower than all unfinished ones; or if those entries are all unfinished and none is lower than a
      finished one. */
  lemma {:induction false} ScanDropsAll(s: seq<Node>, i: nat, fin: set<nat>, c: nat)
    requires Ordered(s) && Apart(s) && i <= |s| && NoneFinished(s[..i], fin)
    requires |Present(s, fin)| <= c + 1 && Guarded(s, fin, c)
    ensures NoneFinished(Scan(s, i, fin), fin)
    decreases |s|, |s| - i
  {
    hide Without, Ordered, Apart, LowTail, HighTail, UnfinishedUntied, Slips;
    if i == |s| {
      assert s[..i] == s;
    } else if s[i].elem in fin {
      RemovalCounts(s, i, fin);
      if c == 0 {
        assert Present(Without(s, i), fin) == {};
        NoneLeft(Without(s, i), fin);
        ScanSkips(Without(s, i), i, |s| - 1, fin);
      } else {
        NothingSlips(s, i, fin, c);
        SlipsExactly(s, i, fin);
        GuardKept(s, i, fin, c);
        ScanDropsAll(Without(s, i), i, fin, c - 1);
      }
    } else {
      assert forall x :: 0 <= x < i + 1 ==> s[..i + 1][x] == if x < i then s[..i][x] else s[i];
      ScanDropsAll(s, i + 1, fin, c);
    }
  }

  lemma {:induction false} ScanSkips(s: seq<Node>, k: nat, i: nat, fin: set<nat>)
    requires k <= i <= |s| && forall x :: k <= x < i ==> s[x].elem !in fin
    ensures Scan(s, k, fin) == Scan(s, i, fin)
    decreases i - k
  {
    hide Without;
    if k < i {
      ScanSkips(s, k + 1, i, fin);
    }
  }

  /** A single finished job is always dropped. */
  lemma OneDropped(s: seq<Node>, fin: set<nat>, i: nat)
    requires Ordered(s) && Apart(s) && i < |s|
    requires forall x :: 0 <= x < |s| ==> (s[x].elem in fin <==> x == i)
    ensures NoneFinished(Scan(s, 0, fin), fin)
  {
    hide Without, Ordered, Apart;
    ScanSkips(s, 0, i, fin);
    OnePresent(s, i, fin);
    ScanSkips(Without(s, i), i, |s| - 1, fin);
  }

  lemma OnePresent(s: seq<Node>, i: nat, fin: set<nat>)
    requires Ordered(s) && Apart(s) && i < |s| && s[i].elem in fin
    requires forall x :: 0 <= x < |s| && x != i ==> s[x].elem !in fin
    ensures NoneFinished(Without(s, i), fin)
  {
    hide Without, Ordered, Apart;
    RemovalCounts(s, i, fin);
    forall e ensures e in Present(s, fin) <==> e == s[i].elem {
    }
    assert Present(s, fin) - {s[i].elem} == {};
    NoneLeft(Without(s, i), fin);
  }

  lemma NoneLeft(u: seq<Node>, fin: set<nat>)
    ensures Present(u, fin) == {} ==> NoneFinished(u, fin)
  {
    if !NoneFinished(u, fin) {
      var x :| 0 <= x < |u| && u[x].elem in fin;
      assert u[x].elem in Present(u, fin);
    }
  }

  /** The scan misses the second of two finished jobs, at `i` and further on at `j`: it rises past `i`, or it
      is the last entry and overtakes. */
  ghost predicate Misses(s: seq<Node>, i: nat, j: nat)
    requires i < j < |s|
  {
    if j < |s| - 1 then Parent(j) < i && Passes(s, i, j) else Overtakes(s, i)
  }

  lemma MissesSlips(s: seq<Node>, fin: set<nat>, i: nat, j: nat)
    requires i < j < |s| && forall x :: 0 <= x < |s| ==> (s[x].elem in fin <==> x == i || x == j)
    ensures Slips(s, i, fin) <==> Misses(s, i, j)
  {
    hide Reached, Pushed;
    if Misses(s, i, j) && j < |s| - 1 {
      assert s[j].elem in fin && Passes(s, i, j);
    }
  }

  /** For every heap, ties or not: of exactly two finished jobs the scan drops both unless it misses the
      second. */
  lemma TwoExactly(s: seq<Node>, fin: set<nat>, i: nat, j: nat)
    requires Ordered(s) && Apart(s) && i < j < |s|
    requires forall x :: 0 <= x < |s| ==> (s[x].elem in fin <==> x == i || x == j)
    ensures NoneFinished(Scan(s, 0, fin), fin) <==> !Misses(s, i, j)
  {
    hide Without, Ordered, Apart, Slips, Misses;
    var t, n := Without(s, i), |s| - 1;
    assert forall x :: 0 <= x < i ==> s[..i][x] == s[x];
    ScanSkips(s, 0, i, fin);
    RemovalCounts(s, i, fin);
    SlipsExactly(s, i, fin);
    MissesSlips(s, fin, i, j);
    var z := WhereNow(s, i, j, fin);
    forall x | 0 <= x < n && x != z ensures t[x].elem !in fin {
      OnlyOneLeft(s, i, j, fin, x, z);
    }
    if z < i {
      assert t[..i][z] == t[z];
      ScanSkips(t, i, n, fin);
    } else {
      assert forall x :: 0 <= x < i ==> t[..i][x] == t[x];
      ScanSkips(t, i, z, fin);
      OnePresent(t, z, fin);
      ScanSkips(Without(t, z), z, n - 1, fin);
    }
  }

  /** The place of the second finished job after the first is removed. */
  lemma WhereNow(s: seq<Node>, i: nat, j: nat, fin: set<nat>) returns (z: nat)
    requires Ordered(s) && Apart(s) && i < |s| && j < |s| && i != j
    ensures z < |s| - 1 && Without(s, i)[z] == s[j]
  {
    hide Without, Ordered;
    WithoutOrdered(s, i);
    assert s[j] in multiset(s) && s[j] != s[i];
    assert s[j] in multiset(Without(s, i));
    z :| 0 <= z < |s| - 1 && Without(s, i)[z] == s[j];
  }

  lemma OnlyOneLeft(s: seq<Node>, i: nat, j: nat, fin: set<nat>, x: nat, z: nat)
    requires Ordered(s) && Apart(s) && i < j < |s| && x < |s| - 1 && z < |s| - 1 && x != z
    requires forall x :: 0 <= x < |s| ==> (s[x].elem in fin <==> x == i || x == j)
    requires Without(s, i)[z] == s[j]
    ensures Without(s, i)[x].elem !in fin
  {
    hide Without, Ordered;
    RemovalCounts(s, i, fin);
    var t := Without(s, i);
    assert t[x].elem != t[z].elem;
    WithoutOrdered(s, i);
    CountOne(s, i);
    assert t[x] in multiset(t);
    var y :| 0 <= y < |s| && s[y] == t[x];
    assert s[i] !in multiset(t);
  }

  // ------------------------------------------------------------------
  // Some heaps
  // ------------------------------------------------------------------

  function SixJobs(): seq<Node> {
    [Node(6, 0), Node(3, 1), Node(5, 2), Node(1, 3), Node(2, 4), Node(4, 5)]
  }

  lemma SixOrdered()
    ensures Ordered(SixJobs())
  {
    var s := SixJobs();
    assert |s| == 6 && Parent(1) == 0 && Parent(2) == 0 && Parent(3) == 1 && Parent(4) == 1 && Parent(5) == 2;
    forall k | 0 < k < |s| ensures s[k].priority <= s[Parent(k)].priority {
      assert k == 1 || k == 2 || k == 3 || k == 4 || k == 5;
    }
  }

  lemma SixUntied()
    ensures |SixJobs()| == 6 && forall x :: 0 <= x < 6 ==> SixJobs()[x].elem == x
    ensures Apart(SixJobs()) && Untied(SixJobs()) && SixJobs()[5].priority >= SixJobs()[Parent(3)].priority
  {
  }

  /** Six jobs with distinct priorities, of which two are finished: the scan leaves one of the two. */
  lemma ScanMisses()
    ensures !NoneFinished(Scan(SixJobs(), 0, {3, 5}), {3, 5})
    ensures Ordered(SixJobs()) && Untied(SixJobs())
  {
    hide Scan, Ordered, Apart, Overtakes, NoneFinished, SixJobs, Untied;
    SixOrdered();
    SixUntied();
    UntiedPart(SixJobs(), 3);
    UntiedSlips(SixJobs(), 3);
    TwoExactly(SixJobs(), {3, 5}, 3, 5);
  }

  lemma UntiedPart(s: seq<Node>, i: nat)
    requires Untied(s) && i <= |s|
    ensures Untied(s[..i])
  {
  }

  /** Six jobs of the highest priority here, and two lower ones. */
  function TiedJobs(): seq<Node> {
    [Node(9, 0), Node(9, 1), Node(9, 2), Node(9, 3), Node(9, 4), Node(9, 5), Node(1, 6), Node(2, 7)]
  }

  lemma TiedOrdered()
    ensures Ordered(TiedJobs())
  {
    var s := TiedJobs();
    assert |s| == 8 && Parent(6) == 2 && Parent(7) == 3;
    forall k | 0 < k < |s| ensures s[k].priority <= s[Parent(k)].priority {
      assert k < 6 || k == 6 || k == 7;
    }
  }

  lemma TiedApart()
    ensures |TiedJobs()| == 8 && forall x :: 0 <= x < 8 ==> TiedJobs()[x].elem == x
    ensures Apart(TiedJobs()) && TiedJobs()[7].priority < TiedJobs()[Parent(6)].priority
    ensures TiedJobs()[5].priority == TiedJobs()[2].priority
  {
  }

  /** Of the two lower jobs, both finished, the scan leaves one, although it is lower than the parent of the
      other: its way to place 6 is barred by a tie, and it sinks on the other side. */
  lemma TieMisses()
    ensures !NoneFinished(Scan(TiedJobs(), 0, {6, 7}), {6, 7})
    ensures Ordered(TiedJobs()) && TiedJobs()[7].priority < TiedJobs()[Parent(6)].priority
  {
    hide Scan, Ordered, Apart, NoneFinished, TiedJobs, Pushed;
    TiedOrdered();
    TiedApart();
    TieBars(TiedJobs(), 6);
    TwoExactly(TiedJobs(), {6, 7}, 6, 7);
  }

  /** A right child whose sibling ties with their parent is not reached. */
  lemma TieBars(s: seq<Node>, i: nat)
    requires 0 < i < |s| - 1 && i % 2 == 0 && s[i - 1].priority == s[Parent(i)].priority
    ensures !Passes(s, i, i)
  {
    var t := Pushed(s, i);
    assert t[i] == s[Parent(i)];
    if Above(i - 1, i) { AboveBound(i - 1, i); }
    assert t[i - 1] == s[i - 1];
  }

  function SevenJobs(): seq<Node> {
    [Node(7, 0), Node(3, 1), Node(6, 2), Node(1, 3), Node(2, 4), Node(5, 5), Node(4, 6)]
  }

  lemma SevenSteps()
    ensures Without(SevenJobs(), 3) == [Node(7, 0), Node(4, 6), Node(6, 2), Node(3, 1), Node(2, 4), Node(5, 5)]
    ensures Without([Node(7, 0), Node(4, 6), Node(6, 2), Node(3, 1), Node(2, 4), Node(5, 5)], 4)
         == FiveJobs()
    ensures Without(FiveJobs(), 4)
         == [Node(7, 0), Node(5, 5), Node(6, 2), Node(3, 1)]
  {
    FirstStep();
    SecondStep();
    ThirdStep();
  }

  lemma FirstStep()
    ensures Without(SevenJobs(), 3) == [Node(7, 0), Node(4, 6), Node(6, 2), Node(3, 1), Node(2, 4), Node(5, 5)]
  {
    var r := SevenJobs()[3 := Node(MAX, 3)];
    var u := [Node(MAX, 3), Node(7, 0), Node(6, 2), Node(3, 1), Node(2, 4), Node(5, 5), Node(4, 6)];
    assert Up(r, 3) == u by {
      var v := Swapped(r, 3, 1);
      assert Up(r, 3) == Up(v, 1) && Up(v, 1) == Up(Swapped(v, 1, 0), 0) && Swapped(v, 1, 0) == u;
    }
    var t := [Node(4, 6), Node(7, 0), Node(6, 2), Node(3, 1), Node(2, 4), Node(5, 5)];
    assert Swapped(u, 0, 6)[..6] == t;
    assert Largest(t, 0) == 1;
    var w := [Node(7, 0), Node(4, 6), Node(6, 2), Node(3, 1), Node(2, 4), Node(5, 5)];
    assert Swapped(t, 0, 1) == w;
    assert Largest(w, 1) == 1;
    assert Down(t, 0) == Down(w, 1) == w;
  }

  lemma SecondStep()
    ensures Without([Node(7, 0), Node(4, 6), Node(6, 2), Node(3, 1), Node(2, 4), Node(5, 5)], 4)
         == FiveJobs()
  {
    var r := [Node(7, 0), Node(4, 6), Node(6, 2), Node(3, 1), Node(MAX, 4), Node(5, 5)];
    var u := [Node(MAX, 4), Node(7, 0), Node(6, 2), Node(3, 1), Node(4, 6), Node(5, 5)];
    assert Up(r, 4) == u by {
      var v := Swapped(r, 4, 1);
      assert Up(r, 4) == Up(v, 1) && Up(v, 1) == Up(Swapped(v, 1, 0), 0) && Swapped(v, 1, 0) == u;
    }
    var t := [Node(5, 5), Node(7, 0), Node(6, 2), Node(3, 1), Node(4, 6)];
    assert Swapped(u, 0, 5)[..5] == t;
    assert Largest(t, 0) == 1;
    var w := [Node(7, 0), Node(5, 5), Node(6, 2), Node(3, 1), Node(4, 6)];
    assert Swapped(t, 0, 1) == w;
    assert Largest(w, 1) == 1;
    assert Down(t, 0) == Down(w, 1) == w;
    assert [Node(7, 0), Node(4, 6), Node(6, 2), Node(3, 1), Node(2, 4), Node(5, 5)][4 := Node(MAX, 4)] == r;
  }

  lemma ThirdStep()
    ensures Without(FiveJobs(), 4)
         == [Node(7, 0), Node(5, 5), Node(6, 2), Node(3, 1)]
  {
    var r := [Node(7, 0), Node(5, 5), Node(6, 2), Node(3, 1), Node(MAX, 6)];
    var u := [Node(MAX, 6), Node(7, 0), Node(6, 2), Node(3, 1), Node(5, 5)];
    assert Up(r, 4) == u by {
      var v := Swapped(r, 4, 1);
      assert Up(r, 4) == Up(v, 1) && Up(v, 1) == Up(Swapped(v, 1, 0), 0) && Swapped(v, 1, 0) == u;
    }
    var t := [Node(5, 5), Node(7, 0), Node(6, 2), Node(3, 1)];
    assert Swapped(u, 0, 4)[..4] == t;
    assert Largest(t, 0) == 1;
    var w := [Node(7, 0), Node(5, 5), Node(6, 2), Node(3, 1)];
    assert Swapped(t, 0, 1) == w;
    assert Largest(w, 1) == 1;
    assert Down(t, 0) == Down(w, 1) == w;
    assert FiveJobs()[4 := Node(MAX, 6)] == r;
  }

  function FiveJobs(): seq<Node> {
    [Node(7, 0), Node(5, 5), Node(6, 2), Node(3, 1), Node(4, 6)]
  }

  lemma SevenOvertaken()
    ensures Overtakes(SevenJobs(), 3)
  {
    hide Overtakes;
    var s := SevenJobs();
    assert |s| == 7 && Parent(1) == 0 && Parent(2) == 0 && Parent(3) == 1 && Parent(4) == 1 && Parent(5) == 2 && Parent(6) == 2;
    forall k | 0 < k < |s| ensures s[k].priority <= s[Parent(k)].priority {
      assert k == 1 || k == 2 || k == 3 || k == 4 || k == 5 || k == 6;
    }
    UntiedSlips(s, 3);
  }

  /** Why two finished jobs can be told from the heap alone and more cannot: here a finished job overtakes
      the scan in the first removal, a later removal moves it back, and the scan drops all three. */
  lemma OvertakenAndDropped()
    ensures Overtakes(SevenJobs(), 3) && SevenJobs()[6].elem in {3, 4, 6}
    ensures Without(SevenJobs(), 3)[1] == SevenJobs()[6]
    ensures NoneFinished(Scan(SevenJobs(), 0, {3, 4, 6}), {3, 4, 6})
  {
    hide Without, Overtakes;
    var fin := {3, 4, 6};
    var s := SevenJobs();
    SevenOvertaken();
    SevenSteps();
    ScanSkips(s, 0, 3, fin);
    var t := [Node(7, 0), Node(4, 6), Node(6, 2), Node(3, 1), Node(2, 4), Node(5, 5)];
    assert Scan(s, 3, fin) == Scan(t, 3, fin);
    ScanSkips(t, 3, 4, fin);
    var u := FiveJobs();
    assert Scan(t, 4, fin) == Scan(u, 4, fin);
    var v := [Node(7, 0), Node(5, 5), Node(6, 2), Node(3, 1)];
    assert Scan(u, 4, fin) == Scan(v, 4, fin) == v;
  }
}
