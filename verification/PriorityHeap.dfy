/** The binary max-heap behind the priority scheduler, kept in a growing vector. */
module PriorityHeaps {

  const MAX: nat := 0xffff_ffff

  type Priority = n: nat | n <= MAX

  datatype Node = Node(priority: Priority, elem: nat)

  function Parent(i: nat): nat
    requires 0 < i
  {
    (i - 1) / 2
  }

  function Left(i: nat): nat {
    2 * i + 1
  }

  function Right(i: nat): nat {
    2 * i + 2
  }

  /** No node above its parent. */
  ghost predicate Ordered(s: seq<Node>) {
    forall k {:trigger s[k]} :: 0 < k < |s| ==> s[k].priority <= s[Parent(k)].priority
  }

  /** Ordered but for node `i`, which may be too high; the nodes below `i` fit under its parent. */
  ghost predicate OrderedButUp(s: seq<Node>, i: nat) {
    && (forall k {:trigger s[k]} :: 0 < k < |s| && k != i ==> s[k].priority <= s[Parent(k)].priority)
    && (forall k {:trigger s[k]} :: 0 < k < |s| && Parent(k) == i && 0 < i ==> s[k].priority <= s[Parent(i)].priority)
  }

  /** Ordered but for node `i`, which may be too low; the nodes below `i` fit under its parent. */
  ghost predicate OrderedButDown(s: seq<Node>, i: nat) {
    && (forall k {:trigger s[k]} :: 0 < k < |s| && Parent(k) != i ==> s[k].priority <= s[Parent(k)].priority)
    && (forall k {:trigger s[k]} :: 0 < k < |s| && Parent(k) == i && 0 < i < |s| ==> s[k].priority <= s[Parent(i)].priority)
  }

  function Swapped(s: seq<Node>, i: nat, j: nat): seq<Node>
    requires i < |s| && j < |s|
  {
    s[i := s[j]][j := s[i]]
  }

  lemma SwapPermutes(s: seq<Node>, i: nat, j: nat)
    requires i < |s| && j < |s|
    ensures multiset(Swapped(s, i, j)) == multiset(s)
  {
  }

  /** The root of a heap has the largest priority. */
  lemma {:induction false} RootIsMax(s: seq<Node>, k: nat)
    requires Ordered(s) && k < |s|
    ensures s[k].priority <= s[0].priority
  {
    if k > 0 {
      RootIsMax(s, Parent(k));
    }
  }

  /** While a node rises, the nodes above it still form a heap with the same root. */
  lemma {:induction false} RootAbove(s: seq<Node>, i: nat, k: nat)
    requires OrderedButUp(s, i) && k < i < |s|
    ensures s[k].priority <= s[0].priority
    decreases k
  {
    if k > 0 {
      RootAbove(s, i, Parent(k));
    }
  }

  lemma RiseStep(s: seq<Node>, i: nat)
    requires 0 < i < |s| && OrderedButUp(s, i) && s[i].priority > s[Parent(i)].priority
    ensures OrderedButUp(Swapped(s, i, Parent(i)), Parent(i))
  {
    var p := Parent(i);
    var t := Swapped(s, i, p);
    forall k | 0 < k < |t| ensures k != p ==> t[k].priority <= t[Parent(k)].priority {
      assert s[k] == s[k] && s[Parent(k)] == s[Parent(k)];
      assert p > 0 ==> s[p].priority <= s[Parent(p)].priority;
    }
    forall k | 0 < k < |t| && Parent(k) == p && 0 < p ensures t[k].priority <= t[Parent(p)].priority {
      assert s[k].priority <= s[p].priority <= s[Parent(p)].priority || k == i;
      assert s[p].priority <= s[Parent(p)].priority;
    }
  }

  lemma SinkStep(s: seq<Node>, i: nat, j: nat)
    requires i < j < |s| && Parent(j) == i && OrderedButDown(s, i)
    requires s[j].priority > s[i].priority
    requires forall k :: 0 < k < |s| && Parent(k) == i ==> s[k].priority <= s[j].priority
    ensures OrderedButDown(Swapped(s, i, j), j)
  {
    var t := Swapped(s, i, j);
    forall k | 0 < k < |t| ensures Parent(k) != j ==> t[k].priority <= t[Parent(k)].priority {
      assert s[k] == s[k] && s[Parent(k)] == s[Parent(k)];
      assert 0 < i ==> s[j].priority <= s[Parent(i)].priority;
    }
    forall k | 0 < k < |t| && Parent(k) == j ensures t[k].priority <= t[Parent(j)].priority {
      assert s[k].priority <= s[j].priority;
    }
  }

  /** The last node put at the root, and the root dropped. */
  lemma LastToRoot(s: seq<Node>)
    requires s != [] && Ordered(s)
    ensures var t := Swapped(s, 0, |s| - 1)[..|s| - 1];
            OrderedButDown(t, 0) && multiset(t) == multiset(s) - multiset{s[0]}
  {
    var u := Swapped(s, 0, |s| - 1);
    SwapPermutes(s, 0, |s| - 1);
    assert u == u[..|s| - 1] + [s[0]];
  }

  /** Entry `i` with the highest priority there is. */
  lemma RaisedRises(s: seq<Node>, i: nat)
    requires i < |s| && Ordered(s)
    ensures OrderedButUp(s[i := s[i].(priority := MAX)], i)
  {
  }

  // What the operations make of the vector, entry by entry.

  /** A node risen as far as it goes. */
  function Up(s: seq<Node>, i: nat): (t: seq<Node>)
    requires i < |s|
    ensures |t| == |s|
    decreases i
  {
    if i == 0 || s[i].priority <= s[Parent(i)].priority then s else Up(Swapped(s, i, Parent(i)), Parent(i))
  }

  /** The node and its children: where the largest is, the left before the right. */
  function Largest(s: seq<Node>, i: nat): (m: nat)
    requires i < |s|
    ensures i <= m < |s| && (m == i || m == Left(i) || m == Right(i))
  {
    var m := if Left(i) < |s| && s[Left(i)].priority > s[i].priority then Left(i) else i;
    if Right(i) < |s| && s[Right(i)].priority > s[m].priority then Right(i) else m
  }

  /** A node sunk as far as it goes. */
  function Down(s: seq<Node>, i: nat): (t: seq<Node>)
    ensures |t| == |s|
    decreases |s| - i
  {
    if i >= |s| || Largest(s, i) == i then s else Down(Swapped(s, i, Largest(s, i)), Largest(s, i))
  }

  /** One step of sinking, or its end. */
  lemma SinkOn(s: seq<Node>, i: nat)
    requires OrderedButDown(s, i)
    ensures i < |s| && Largest(s, i) != i ==>
              && OrderedButDown(Swapped(s, i, Largest(s, i)), Largest(s, i))
              && Down(Swapped(s, i, Largest(s, i)), Largest(s, i)) == Down(s, i)
    ensures i >= |s| || Largest(s, i) == i ==> Ordered(s) && Down(s, i) == s
  {
    hide Swapped;
    assert forall k {:trigger Parent(k)} :: 0 < k && Parent(k) == i ==> k == Left(i) || k == Right(i);
    if i < |s| && Largest(s, i) != i {
      SinkStep(s, i, Largest(s, i));
    }
  }

  /** The root taken out. */
  function Extracted(s: seq<Node>): (t: seq<Node>)
    requires s != []
    ensures |t| == |s| - 1
  {
    Down(Swapped(s, 0, |s| - 1)[..|s| - 1], 0)
  }

  /** Entry `i` raised, risen and taken out. */
  function Without(s: seq<Node>, i: nat): (t: seq<Node>)
    requires i < |s|
    ensures |t| == |s| - 1
  {
    Extracted(Up(s[i := s[i].(priority := MAX)], i))
  }

  class PriorityHeap {
    /** The entries in use. */
    var nodes: seq<Node>
    var cap: nat

    ghost predicate Valid()
      reads this
    {
      |nodes| <= cap && Ordered(nodes)
    }

    constructor (defaultCap: nat)
      ensures Valid() && nodes == [] && cap == defaultCap
    {
      nodes := [];
      cap := defaultCap;
    }

    method SwapIndices(i: nat, j: nat)
      requires i < |nodes| && j < |nodes|
      modifies `nodes
      ensures nodes == Swapped(old(nodes), i, j)
      ensures multiset(nodes) == multiset(old(nodes))
    {
      SwapPermutes(nodes, i, j);
      var tmp := nodes[i];
      nodes := nodes[i := nodes[j]];
      nodes := nodes[j := tmp];
    }

    /** Let a node rise. It ends at the root unless the root is at least as high. */
    method ShiftUp(start: nat)
      requires start < |nodes| && OrderedButUp(nodes, start)
      modifies `nodes
      ensures Ordered(nodes) && |nodes| == |old(nodes)|
      ensures multiset(nodes) == multiset(old(nodes))
      ensures nodes[0] == if start > 0 && old(nodes)[0].priority >= old(nodes)[start].priority
                          then old(nodes)[0] else old(nodes)[start]
      ensures nodes == Up(old(nodes), start)
    {
      var i: nat := start;
      while i > 0
        invariant i <= start && |nodes| == |old(nodes)|
        invariant OrderedButUp(nodes, i)
        invariant nodes[i] == old(nodes)[start]
        invariant i > 0 ==> nodes[0] == old(nodes)[0]
        invariant i == 0 && start > 0 ==> old(nodes)[0].priority < old(nodes)[start].priority
        invariant Up(nodes, i) == Up(old(nodes), start)
        invariant multiset(nodes) == multiset(old(nodes))
      {
        var parent := Parent(i);
        RootAbove(nodes, i, parent);
        if nodes[i].priority <= nodes[parent].priority {
          break;
        }
        RiseStep(nodes, i);
        SwapIndices(i, parent);
        i := parent;
      }
    }

    /** Let a node sink. */
    method ShiftDown(start: nat)
      requires OrderedButDown(nodes, start)
      modifies `nodes
      ensures Ordered(nodes) && |nodes| == |old(nodes)|
      ensures multiset(nodes) == multiset(old(nodes))
      ensures nodes == Down(old(nodes), start)
    {
      hide Ordered, OrderedButDown, Swapped, Down;
      var i, maxIdx := start, start;
      while true
        invariant i == maxIdx && |nodes| == |old(nodes)|
        invariant OrderedButDown(nodes, i)
        invariant multiset(nodes) == multiset(old(nodes))
        invariant Down(nodes, i) == Down(old(nodes), start)
        decreases |nodes| - i
      {
        var left, right := Left(i), Right(i);
        SinkOn(nodes, i);
        if left < |nodes| && nodes[left].priority > nodes[maxIdx].priority {
          maxIdx := left;
        }
        if right < |nodes| && nodes[right].priority > nodes[maxIdx].priority {
          maxIdx := right;
        }
        if maxIdx != i {
          SwapIndices(i, maxIdx);
          i := maxIdx;
          continue;
        }
        break;
      }
    }

    /** Add an entry. */
    method Insert(elem: nat, priority: Priority)
      requires Valid() && 0 < cap
      modifies this
      ensures Valid() && 0 < cap
      ensures multiset(nodes) == multiset(old(nodes)) + multiset{Node(priority, elem)}
    {
      if |nodes| == cap {
        cap := cap * 2;
      }
      var n := |nodes|;
      nodes := nodes + [Node(priority, elem)];
      assert OrderedButUp(nodes, n);
      ShiftUp(n);
    }

    method GetMax() returns (node: Node, found: bool)
      requires Valid()
      ensures found <==> nodes != []
      ensures found ==> node == nodes[0]
      ensures found ==> node in multiset(nodes) && forall n :: n in multiset(nodes) ==> n.priority <= node.priority
    {
      if |nodes| == 0 {
        return Node(0, 0), false;
      }
      forall n | n in multiset(nodes) ensures n.priority <= nodes[0].priority {
        var k :| 0 <= k < |nodes| && nodes[k] == n;
        RootIsMax(nodes, k);
      }
      return nodes[0], true;
    }

    /** Take out a largest entry; an empty heap stays as it is. */
    method ExtractMax() returns (node: Node, found: bool)
      requires Valid()
      modifies `nodes
      ensures Valid()
      ensures found <==> old(nodes) != []
      ensures !found ==> nodes == old(nodes)
      ensures found ==> node == old(nodes)[0] && multiset(nodes) == multiset(old(nodes)) - multiset{node}
      ensures found ==> node in multiset(old(nodes)) && forall n :: n in multiset(old(nodes)) ==> n.priority <= node.priority
      ensures found ==> nodes == Extracted(old(nodes))
    {
      hide Ordered, OrderedButDown, Swapped, Down;
      node, found := GetMax();
      if |nodes| == 0 {
        return;
      }
      node := nodes[0];
      LastToRoot(nodes);
      SwapIndices(0, |nodes| - 1);
      nodes := nodes[..|nodes| - 1];
      ShiftDown(0);
    }

    /** Remove entry `i`: raise it above all others, let it rise, extract. */
    method Remove(i: nat)
      requires Valid()
      modifies `nodes
      ensures Valid()
      ensures i >= |old(nodes)| ==> nodes == old(nodes)
      ensures i < |old(nodes)| ==> multiset(nodes) == Removed(old(nodes), i)
      ensures i < |old(nodes)| ==> nodes == Without(old(nodes), i)
    {
      if i >= |nodes| {
        return;
      }
      RaiseAndTake(i);
    }

    /** The part of removal for an entry there is. */
    method RaiseAndTake(i: nat)
      requires Valid() && i < |nodes|
      modifies `nodes
      ensures Valid() && multiset(nodes) == Removed(old(nodes), i)
      ensures nodes == Without(old(nodes), i)
    {
      hide Ordered, OrderedButUp, Removed, Up, Extracted;
      RaisedRises(nodes, i);
      RemovedIs(nodes, i);
      nodes := nodes[i := nodes[i].(priority := MAX)];
      ghost var raised := nodes;
      ShiftUp(i);
      ghost var top := nodes[0];
      assert top == if i > 0 && raised[0].priority >= raised[i].priority then raised[0] else raised[i];
      var node, found := ExtractMax();
      assert multiset(nodes) == multiset(raised) - multiset{top};
    }

    /** Copy another heap over this one. */
    method CopyFrom(src: PriorityHeap)
      requires src.Valid()
      modifies this
      ensures nodes == old(src.nodes) && cap == old(src.cap)
    {
      nodes := src.nodes;
      cap := src.cap;
    }
  }

  /** What removing entry `i` leaves. If the root already has the highest priority there is and is not
      the entry, the entry cannot pass it, and the root is taken out in its place. */
  ghost function Removed(s: seq<Node>, i: nat): multiset<Node>
    requires i < |s|
  {
    var raised := multiset(s) - multiset{s[i]} + multiset{s[i].(priority := MAX)};
    raised - multiset{if i > 0 && s[0].priority == MAX then s[0] else s[i].(priority := MAX)}
  }

  lemma RemovedIs(s: seq<Node>, i: nat)
    requires i < |s|
    ensures var t := s[i := s[i].(priority := MAX)];
            Removed(s, i) == multiset(t) - multiset{if i > 0 && t[0].priority >= t[i].priority then t[0] else t[i]}
  {
    RaisedMultiset(s, i);
  }

  lemma RaisedMultiset(s: seq<Node>, i: nat)
    requires i < |s|
    ensures multiset(s[i := s[i].(priority := MAX)]) == multiset(s) - multiset{s[i]} + multiset{s[i].(priority := MAX)}
  {
  }

  /** Removal deletes exactly entry `i` if and only if it is the root, or the root is below the highest
      priority, or the root holds the same element. */
  lemma RemoveExact(s: seq<Node>, i: nat)
    requires i < |s|
    ensures Removed(s, i) == multiset(s) - multiset{s[i]} <==> i == 0 || s[0].priority < MAX || s[0].elem == s[i].elem
  {
    var rest, raised := multiset(s) - multiset{s[i]}, s[i].(priority := MAX);
    assert (rest + multiset{raised}) - multiset{raised} == rest;
    if i > 0 && s[0].priority == MAX && s[0].elem != s[i].elem {
      assert Removed(s, i)[raised] == rest[raised] + 1;
    }
  }

  /** A heap whose root has the highest priority there is: removing the other entry takes out the root,
      and leaves the other with its priority raised. */
  lemma RemoveTakesRoot()
    ensures Removed([Node(MAX, 1), Node(5, 2)], 1) == multiset{Node(MAX, 2)}
    ensures Removed([Node(MAX, 1), Node(5, 2)], 1) != multiset([Node(MAX, 1), Node(5, 2)]) - multiset{Node(5, 2)}
  {
    var s := [Node(MAX, 1), Node(5, 2)];
    assert multiset(s) == multiset{Node(MAX, 1), Node(5, 2)};
    RemoveExact(s, 1);
  }

  /** The entries are those of `was` not dropped, and the new one. */
  ghost predicate Publishes(m: multiset<Node>, was: multiset<Node>, dropped: set<nat>, node: Node) {
    forall n :: n in m <==> n == node || (n in was && n.elem !in dropped)
  }

  /** A heap in order that may be published after `was`: some entries dropped and one added. */
  ghost predicate NextHeap(was: seq<Node>, s: seq<Node>) {
    Ordered(s) && exists dropped, node :: Publishes(multiset(s), multiset(was), dropped, node)
  }

  /** What extraction does: heap `after` is heap `before` without `x`, a largest entry. */
  ghost predicate Extracts(before: multiset<Node>, x: Node, after: multiset<Node>) {
    && x in before
    && (forall n :: n in before ==> n.priority <= x.priority)
    && after == before - multiset{x}
  }

  /** Successive heaps, each the one before with a largest entry taken out. */
  ghost predicate Drains(heaps: seq<multiset<Node>>, taken: seq<Node>) {
    && |heaps| == |taken| + 1
    && forall k :: 0 <= k < |taken| ==> Extracts(heaps[k], taken[k], heaps[k + 1])
  }

  /** Draining a heap gives its entries, and gives them with non-increasing priorities. */
  lemma {:induction false} DrainOrder(heaps: seq<multiset<Node>>, taken: seq<Node>)
    requires Drains(heaps, taken)
    ensures forall i, j :: 0 <= i < j < |taken| ==> taken[i].priority >= taken[j].priority
    ensures heaps[0] == multiset(taken) + heaps[|taken|]
  {
    hide Extracts;
    if taken != [] {
      var n := |taken| - 1;
      var init := taken[..n];
      assert forall k :: 0 <= k < n ==> init[k] == taken[k] && heaps[..n + 1][k] == heaps[k];
      DrainOrder(heaps[..n + 1], init);
      forall i | 0 <= i < n ensures taken[i].priority >= taken[n].priority {
        LaterIsLower(heaps, taken, i, n);
      }
      TakenOver(taken, heaps[n], heaps[n + 1]);
    }
  }

  lemma TakenOver(taken: seq<Node>, before: multiset<Node>, after: multiset<Node>)
    requires taken != [] && Extracts(before, taken[|taken| - 1], after)
    ensures multiset(taken[..|taken| - 1]) + before == multiset(taken) + after
  {
    assert taken == taken[..|taken| - 1] + [taken[|taken| - 1]];
  }

  lemma LaterIsLower(heaps: seq<multiset<Node>>, taken: seq<Node>, i: nat, j: nat)
    requires Drains(heaps, taken) && i < j < |taken|
    ensures taken[i].priority >= taken[j].priority
  {
    DrainShrinks(heaps, taken, i, j);
    assert Extracts(heaps[i], taken[i], heaps[i + 1]) && Extracts(heaps[j], taken[j], heaps[j + 1]);
  }

  lemma {:induction false} DrainShrinks(heaps: seq<multiset<Node>>, taken: seq<Node>, i: nat, j: nat)
    requires Drains(heaps, taken) && i <= j < |heaps|
    ensures heaps[j] <= heaps[i]
    decreases j - i
  {
    if i < j {
      assert Extracts(heaps[i], taken[i], heaps[i + 1]);
      DrainShrinks(heaps, taken, i + 1, j);
    }
  }
}
