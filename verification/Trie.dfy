/** The shape of the adaptive radix tree, as a value.

    A tree is a set of live cells, each reached through a pointer that names a pool
    and a slot. The ghost label `pre` gives every live pointer the symbols consumed on the
    way from the root to it: the nibbles of the key, and IMMEDIATE for the entry of a key that
    ends at a branch. With these labels the whole tree invariant is local: what one cell says
    about its children, and what any two cells say about each other. */
module Trie {

  type Sym = n: nat | n <= 16

  type Nib = n: Sym | n < 16

  type Label = seq<Sym>

  type Key = seq<Nib>

  type Value = nat

  /** The branch index of the entry for a key that ends at the branch. */
  const IMMEDIATE: Sym := 16

  datatype Kind = None | Edge | Leaf | Branch4 | Branch8 | Branch16 | BranchFull {
    predicate IsBranch() {
      Branch4? || Branch8? || Branch16? || BranchFull?
    }
  }

  datatype Ptr = Ptr(kind: Kind, idx: nat)

  const NIL := Ptr(None, 0)

  datatype Cell =
    | LeafCell(val: Value)
    | EdgeCell(str: Key, next: Ptr)
    | BranchCell(ents: map<Sym, Ptr>)

  type Store = map<Ptr, Cell>

  type Labels = map<Ptr, Label>

  /** What cell `p` promises about the pointers it holds. */
  ghost predicate Local(st: Store, pre: Labels, p: Ptr)
    requires p in st && pre.Keys == st.Keys
  {
    match st[p]
    case LeafCell(_) => p.kind == Leaf
    case EdgeCell(s, n) => p.kind == Edge && s != [] && n in st && pre[n] == pre[p] + s
    case BranchCell(e) => p.kind.IsBranch() && forall v :: v in e ==> LocalEntry(st, pre, p, v, e[v])
  }

  /** An entry consumes its symbol; immediates are leaves. */
  ghost predicate LocalEntry(st: Store, pre: Labels, p: Ptr, v: Sym, n: Ptr)
    requires p in st && pre.Keys == st.Keys
  {
    n in st && pre[n] == pre[p] + [v] && (v == IMMEDIATE ==> n.kind == Leaf)
  }

  /** A cell `c` labelled `k` accounts for another cell `q` labelled `m`: if `m` extends `k`, then
      `q` lies below `c`, and it is the child of `c` when `m` is exactly one step away. */
  ghost predicate CoversCell(c: Cell, k: Label, m: Label, q: Ptr) {
    k <= m ==>
      match c
      case LeafCell(_) => false
      case EdgeCell(s, n) => k + s <= m && (m == k + s ==> n == q)
      case BranchCell(e) => k != m && m[|k|] in e && (m == k + [m[|k|]] ==> e[m[|k|]] == q)
  }

  ghost predicate Covers(st: Store, pre: Labels, p: Ptr, q: Ptr)
    requires p in st && q in st && pre.Keys == st.Keys
  {
    p != q ==> CoversCell(st[p], pre[p], pre[q], q)
  }

  /** `l` is the label of a leaf for key `k`: reached directly, or as an immediate. */
  ghost predicate LabelsLeaf(l: Label, k: Key) {
    l == k || l == k + [IMMEDIATE]
  }

  datatype Trie = Trie(root: Ptr, st: Store, pre: Labels, home: map<Key, Ptr>, leafKey: map<Ptr, Key>) {

    ghost predicate Labelled() {
      && pre.Keys == st.Keys
      && if root.kind == None then st == map[] else root in st && pre[root] == []
    }

    ghost predicate AllLocal()
      requires pre.Keys == st.Keys
    {
      forall p {:trigger Local(st, pre, p)} :: p in st ==> Local(st, pre, p)
    }

    ghost predicate AllCover()
      requires pre.Keys == st.Keys
    {
      forall p, q {:trigger Covers(st, pre, p, q)} :: p in st && q in st ==> Covers(st, pre, p, q)
    }

    /** `home` and `leafKey` are inverse bijections between the stored keys and the live leaves. */
    ghost predicate HomeOk()
      requires pre.Keys == st.Keys
    {
      && (forall k :: k in home ==> k != [] && home[k] in leafKey && leafKey[home[k]] == k)
      && (forall p :: p in leafKey ==>
            p in st && p.kind == Leaf && leafKey[p] in home && home[leafKey[p]] == p && LabelsLeaf(pre[p], leafKey[p]))
      && (forall p :: p in st && p.kind == Leaf ==> p in leafKey)
    }

    ghost predicate Inv() {
      Labelled() && AllLocal() && AllCover() && HomeOk()
    }

    /** The map the tree stands for. */
    ghost function Content(): map<Key, Value>
      requires Inv()
    {
      map k | k in home :: (assert Local(st, pre, home[k]); st[home[k]].val)
    }
  }

  /** The kind of pointer and the kind of cell agree. */
  lemma KindOfCell(t: Trie, p: Ptr)
    requires t.Inv() && p in t.st
    ensures p.kind == Leaf <==> t.st[p].LeafCell?
    ensures p.kind == Edge <==> t.st[p].EdgeCell?
    ensures p.kind.IsBranch() <==> t.st[p].BranchCell?
    ensures p.kind != None
  {
    assert Local(t.st, t.pre, p);
  }

  /** Keys keep their leaves when the leaves keep their places. */
  lemma KeepHome(t: Trie, u: Trie)
    requires t.Inv() && u.pre.Keys == u.st.Keys && u.home == t.home && u.leafKey == t.leafKey
    requires forall q :: q in u.st && q.kind == Leaf ==> q in t.st
    requires forall q :: q in t.st && q.kind == Leaf ==> q in u.st && u.pre[q] == t.pre[q]
    ensures u.HomeOk()
  {
  }

  lemma KeepContent(t: Trie, u: Trie)
    requires t.Inv() && u.Inv() && u.home == t.home
    requires forall q :: q in t.st && q.kind == Leaf ==> q in u.st && u.st[q] == t.st[q]
    ensures u.Content() == t.Content()
  {
  }

  /** Labels tell live cells apart. */
  lemma LabelsInjective(t: Trie, p: Ptr, q: Ptr)
    requires t.Inv() && p in t.st && q in t.st && t.pre[p] == t.pre[q]
    ensures p == q
  {
    assert Covers(t.st, t.pre, p, q);
    assert Local(t.st, t.pre, p);
  }

  // ------------------------------------------------------------------
  // Slots: the places that hold a pointer
  // ------------------------------------------------------------------

  datatype Slot = RootSlot | NextSlot(edge: Ptr) | EntSlot(branch: Ptr, v: Sym)

  ghost predicate IsSlot(t: Trie, s: Slot) {
    match s
    case RootSlot => true
    case NextSlot(e) => e in t.st && t.st[e].EdgeCell?
    case EntSlot(b, v) => b in t.st && t.st[b].BranchCell?
  }

  ghost function At(t: Trie, s: Slot): Ptr
    requires IsSlot(t, s)
  {
    match s
    case RootSlot => t.root
    case NextSlot(e) => t.st[e].next
    case EntSlot(b, v) => if v in t.st[b].ents then t.st[b].ents[v] else NIL
  }

  /** The label a pointer stored in slot `s` must carry. */
  ghost function SlotLabel(t: Trie, s: Slot): Label
    requires IsSlot(t, s) && t.pre.Keys == t.st.Keys
  {
    match s
    case RootSlot => []
    case NextSlot(e) => t.pre[e] + t.st[e].str
    case EntSlot(b, v) => t.pre[b] + [v]
  }

  /** The store after slot `s` is made to hold `q`; the root is no part of the store. */
  ghost function PointStore(t: Trie, s: Slot, q: Ptr): Store
    requires IsSlot(t, s)
  {
    match s
    case RootSlot => t.st
    case NextSlot(e) => t.st[e := EdgeCell(t.st[e].str, q)]
    case EntSlot(b, v) => t.st[b := BranchCell(t.st[b].ents[v := q])]
  }

  ghost function PointRoot(t: Trie, s: Slot, q: Ptr): Ptr {
    if s.RootSlot? then q else t.root
  }

  lemma SlotHolds(t: Trie, s: Slot)
    requires t.Inv() && IsSlot(t, s) && At(t, s).kind != None
    ensures At(t, s) in t.st && t.pre[At(t, s)] == SlotLabel(t, s)
    ensures s.NextSlot? ==> s.edge != At(t, s)
    ensures s.EntSlot? ==> s.branch != At(t, s)
  {
    match s
    case RootSlot =>
    case NextSlot(e) => assert Local(t.st, t.pre, e);
    case EntSlot(b, v) =>
      assert Local(t.st, t.pre, b);
      assert LocalEntry(t.st, t.pre, b, v, t.st[b].ents[v]);
  }

  /** Two slots with one label are one slot; in particular a live pointer is held by one slot. */
  lemma OneSlot(t: Trie, s1: Slot, s2: Slot)
    requires t.Inv() && IsSlot(t, s1) && IsSlot(t, s2)
    requires At(t, s1).kind != None && At(t, s2).kind != None
    requires SlotLabel(t, s1) == SlotLabel(t, s2)
    ensures s1 == s2
  {
    SlotHolds(t, s1);
    SlotHolds(t, s2);
    LabelsInjective(t, At(t, s1), At(t, s2));
    if OwnerLen(t, s1) <= OwnerLen(t, s2) {
      OneSlotOrdered(t, s1, s2);
    } else {
      OneSlotOrdered(t, s2, s1);
    }
  }

  ghost function OwnerLen(t: Trie, s: Slot): int
    requires IsSlot(t, s) && t.pre.Keys == t.st.Keys
  {
    match s
    case RootSlot => -1
    case NextSlot(e) => |t.pre[e]|
    case EntSlot(b, _) => |t.pre[b]|
  }

  /** The branch or edge a slot belongs to. */
  ghost function Owner(s: Slot): Ptr
    requires !s.RootSlot?
  {
    if s.NextSlot? then s.edge else s.branch
  }

  lemma OneSlotOrdered(t: Trie, s1: Slot, s2: Slot)
    requires t.Inv() && IsSlot(t, s1) && IsSlot(t, s2)
    requires At(t, s1).kind != None && At(t, s1) == At(t, s2)
    requires OwnerLen(t, s1) <= OwnerLen(t, s2)
    ensures s1 == s2
  {
    SlotHolds(t, s1);
    SlotHolds(t, s2);
    assert s2.RootSlot? || Local(t.st, t.pre, Owner(s2));
    if !s1.RootSlot? {
      assert Local(t.st, t.pre, Owner(s1));
      assert Covers(t.st, t.pre, Owner(s1), Owner(s2));
      OwnersMeet(t, s1, s2, At(t, s1));
    }
  }

  lemma OwnersMeet(t: Trie, s1: Slot, s2: Slot, q: Ptr)
    requires t.pre.Keys == t.st.Keys
    requires IsSlot(t, s1) && IsSlot(t, s2) && !s1.RootSlot? && !s2.RootSlot?
    requires At(t, s1) == q == At(t, s2) && q.kind != None && q in t.st
    requires OwnerLen(t, s1) <= OwnerLen(t, s2)
    requires t.pre[q] == SlotLabel(t, s1) == SlotLabel(t, s2)
    requires Owner(s1) != q && Owner(s2) != q
    requires s2.NextSlot? ==> t.st[Owner(s2)].str != []
    requires Covers(t.st, t.pre, Owner(s1), Owner(s2))
    ensures s1 == s2
  {
    var o1, o2 := Owner(s1), Owner(s2);
    assert t.pre[o1] <= t.pre[q] && t.pre[o2] <= t.pre[q] && |t.pre[o2]| < |t.pre[q]|;
    assert t.pre[o1] <= t.pre[o2];
    assert s1.EntSlot? ==> t.pre[q][|t.pre[o1]|] == s1.v;
    assert s2.EntSlot? ==> t.pre[q][|t.pre[o2]|] == s2.v;
  }

  // ------------------------------------------------------------------
  // Content-preserving transformations
  // ------------------------------------------------------------------

  ghost predicate Fresh(t: Trie, p: Ptr) {
    p !in t.st && p.kind != None
  }

  ghost predicate IsEdgeAt(t: Trie, p: Ptr) {
    p in t.st && t.st[p].EdgeCell?
  }

  /** What follows position `j` of an edge: its target, or a new edge for the remaining nibbles. */
  ghost function TailPtr(t: Trie, p: Ptr, j: nat, e: Ptr): Ptr
    requires IsEdgeAt(t, p) && j < |t.st[p].str|
  {
    if j + 1 == |t.st[p].str| then t.st[p].next else e
  }

  ghost function WithTail(t: Trie, p: Ptr, j: nat, e: Ptr, st: Store): Store
    requires IsEdgeAt(t, p) && j < |t.st[p].str|
  {
    if j + 1 == |t.st[p].str| then st else st[e := EdgeCell(t.st[p].str[j + 1..], t.st[p].next)]
  }

  // Key-level facts: what covering says along an edge labelled `k` with nibbles `str`.

  /** Nothing else is labelled inside an edge, so a cell above a point inside the edge is above
      the edge itself and accounts for a new cell put there. */
  lemma AboveCut(c: Cell, m: Label, x: Ptr, k: Label, str: Key, next: Ptr, p: Ptr, i: nat, b: Ptr)
    requires 0 < i < |str|
    requires CoversCell(EdgeCell(str, next), k, m, x)
    requires CoversCell(c, m, k, p)
    ensures CoversCell(c, m, k + str[..i], b)
    ensures m <= k + str[..i] ==> |m| < |k|
  {
    var P := k + str[..i];
    assert m <= P && |k| <= |m| ==> k <= m && |k + str| <= |m|;
    if m <= P {
      AboveDeeper(c, m, k, p, P, b);
    }
  }

  /** Whatever accounts for a label `k` below it accounts for every strictly longer one. */
  lemma AboveDeeper(c: Cell, m: Label, k: Label, p: Ptr, d: Label, q: Ptr)
    requires CoversCell(c, m, k, p) && k <= d && k != d
    requires m <= d ==> |m| <= |k|
    ensures CoversCell(c, m, d, q)
  {
    if m <= d {
      assert m <= k;
      assert c.EdgeCell? ==> m + c.str <= k && m + c.str != d;
      assert c.BranchCell? ==> k[|m|] == d[|m|] && d != m + [d[|m|]];
    }
  }

  /** The one-entry branch after `i` nibbles accounts for everything below the edge. */
  lemma BelowCut(k: Label, str: Key, next: Ptr, i: nat, tail: Ptr, m: Label, y: Ptr, b: Ptr)
    requires i < |str|
    requires CoversCell(EdgeCell(str, next), k, m, y)
    requires i + 1 == |str| ==> tail == next
    ensures CoversCell(BranchCell(map[str[i] as Sym := tail]), k + str[..i], m, y)
    ensures 0 < i ==> CoversCell(EdgeCell(str[..i], b), k, m, y)
    ensures i + 1 < |str| ==> CoversCell(EdgeCell(str[i + 1..], next), k + str[..i + 1], m, y)
  {
    var P := k + str[..i];
    assert P <= m ==> k <= m;
    assert k + str <= m ==> P <= m && m[|P|] == str[i];
    assert k + str[..i + 1] <= m ==> k <= m;
    assert k + str == (k + str[..i + 1]) + str[i + 1..];
    assert P + [str[i]] == k + str[..i + 1];
  }

  /** The cells created inside the edge account for each other. */
  lemma WithinCut(k: Label, str: Key, next: Ptr, i: nat, tail: Ptr, b: Ptr)
    requires i < |str|
    ensures 0 < i ==> CoversCell(EdgeCell(str[..i], b), k, k + str[..i], b)
    ensures 0 < i ==> CoversCell(EdgeCell(str[..i], b), k, k + str[..i + 1], tail)
    ensures CoversCell(BranchCell(map[str[i] as Sym := tail]), k + str[..i], k + str[..i + 1], tail)
    ensures CoversCell(EdgeCell(str[i + 1..], next), k + str[..i + 1], k + str[..i], b)
    ensures 0 < i ==> CoversCell(EdgeCell(str[i + 1..], next), k + str[..i + 1], k, b)
    ensures 0 < i ==> CoversCell(BranchCell(map[str[i] as Sym := tail]), k + str[..i], k, b)
  {
    assert (k + str[..i + 1])[|k + str[..i]|] == str[i];
    assert k + str[..i + 1] == (k + str[..i]) + [str[i]];
    assert k <= k + str[..i];
  }

  /** Cut edge `p` after `j > 0` nibbles and let it lead to the one-entry branch `b`. */
  ghost function CutEdge(t: Trie, p: Ptr, j: nat, b: Ptr, e: Ptr): Trie
    requires t.Labelled() && IsEdgeAt(t, p) && 0 < j < |t.st[p].str|
  {
    var str := t.st[p].str;
    var st := t.st[p := EdgeCell(str[..j], b)][b := BranchCell(map[str[j] := TailPtr(t, p, j, e)])];
    var pre := t.pre[b := t.pre[p] + str[..j]];
    t.(st := WithTail(t, p, j, e, st),
       pre := if j + 1 == |str| then pre else pre[e := t.pre[p] + str[..j + 1]])
  }

  ghost predicate CutPre(t: Trie, p: Ptr, j: nat, b: Ptr, e: Ptr) {
    && t.Inv() && IsEdgeAt(t, p) && 0 < j < |t.st[p].str|
    && Fresh(t, b) && b.kind.IsBranch()
    && (j + 1 < |t.st[p].str| ==> Fresh(t, e) && e.kind == Edge)
  }

  lemma CutEdgeCovers(t: Trie, p: Ptr, j: nat, b: Ptr, e: Ptr, x: Ptr, y: Ptr)
    requires CutPre(t, p, j, b, e)
    requires x in CutEdge(t, p, j, b, e).st && y in CutEdge(t, p, j, b, e).st
    ensures Covers(CutEdge(t, p, j, b, e).st, CutEdge(t, p, j, b, e).pre, x, y)
  {
    hide CoversCell;
    hide Local;
    var str, next := t.st[p].str, t.st[p].next;
    var tail := TailPtr(t, p, j, e);
    if x in t.st && x != p {
      if y in t.st {
        assert Covers(t.st, t.pre, x, y);
      } else {
        assert Covers(t.st, t.pre, x, p) && Covers(t.st, t.pre, p, x);
        AboveCut(t.st[x], t.pre[x], x, t.pre[p], str, next, p, if y == b then j else j + 1, y);
      }
    } else if y in t.st && y != p {
      assert Covers(t.st, t.pre, p, y);
      BelowCut(t.pre[p], str, next, j, tail, t.pre[y], y, b);
    } else {
      WithinCut(t.pre[p], str, next, j, tail, b);
      WithinCut(t.pre[p], str, next, j, tail, p);
    }
  }

  lemma CutEdgeLocal(t: Trie, p: Ptr, j: nat, b: Ptr, e: Ptr, x: Ptr)
    requires CutPre(t, p, j, b, e)
    requires x in CutEdge(t, p, j, b, e).st
    ensures Local(CutEdge(t, p, j, b, e).st, CutEdge(t, p, j, b, e).pre, x)
  {
    var str := t.st[p].str;
    assert Local(t.st, t.pre, p);
    assert t.pre[p] + str == (t.pre[p] + str[..j + 1]) + str[j + 1..];
    assert t.pre[p] + str[..j + 1] == (t.pre[p] + str[..j]) + [str[j]];
    if x in t.st { assert Local(t.st, t.pre, x); }
  }

  lemma CutEdgeInv(t: Trie, p: Ptr, j: nat, b: Ptr, e: Ptr)
    requires CutPre(t, p, j, b, e)
    ensures CutEdge(t, p, j, b, e).Inv()
  {
    hide Local;
    hide Covers;
    var u := CutEdge(t, p, j, b, e);
    forall x | x in u.st ensures Local(u.st, u.pre, x) { CutEdgeLocal(t, p, j, b, e, x); }
    forall x, y | x in u.st && y in u.st ensures Covers(u.st, u.pre, x, y) { CutEdgeCovers(t, p, j, b, e, x, y); }
  }

  lemma CutEdgeContent(t: Trie, p: Ptr, j: nat, b: Ptr, e: Ptr)
    requires CutPre(t, p, j, b, e)
    requires CutEdge(t, p, j, b, e).Inv()
    ensures CutEdge(t, p, j, b, e).Content() == t.Content()
  {
    hide Covers, Local;
    var u := CutEdge(t, p, j, b, e);
    forall q | q in t.st && q.kind == Leaf ensures q in u.st && u.st[q] == t.st[q] {
      KindOfCell(t, q);
    }
    KeepContent(t, u);
  }

  // ------------------------------------------------------------------
  // Putting a branch `b` where slot `s` held `p`
  // ------------------------------------------------------------------

  ghost predicate PointPre(t: Trie, s: Slot, b: Ptr) {
    t.Inv() && IsSlot(t, s) && At(t, s).kind != None && Fresh(t, b) && b.kind.IsBranch()
  }

  /** The owner of the slot still accounts for every other cell. */
  lemma PointOld(t: Trie, s: Slot, b: Ptr, x: Ptr, y: Ptr)
    requires PointPre(t, s, b) && x in t.st && y in t.st && x != y && y != At(t, s)
    ensures CoversCell(PointStore(t, s, b)[x], t.pre[x], t.pre[y], y)
  {
    assert Covers(t.st, t.pre, x, y);
  }

  /** Whatever accounted for `p` accounts for `b` in its place. */
  lemma PointAbove(t: Trie, s: Slot, b: Ptr, x: Ptr)
    requires PointPre(t, s, b) && x in t.st && x != At(t, s)
    ensures CoversCell(PointStore(t, s, b)[x], t.pre[x], SlotLabel(t, s), b)
  {
    var p := At(t, s);
    SlotHolds(t, s);
    assert Covers(t.st, t.pre, x, p) && Local(t.st, t.pre, x);
    match t.st[x]
    case LeafCell(_) =>
    case EdgeCell(str, n) =>
      if SlotLabel(t, NextSlot(x)) == t.pre[p] { OneSlot(t, s, NextSlot(x)); }
    case BranchCell(e) =>
      if t.pre[x] <= t.pre[p] {
        var r := EntSlot(x, t.pre[p][|t.pre[x]|]);
        if SlotLabel(t, r) == t.pre[p] { OneSlot(t, s, r); }
      }
  }

  /** Retargeting slot `s` from `p` to `b` keeps every other cell's local promise. */
  lemma PointLocal(t: Trie, s: Slot, b: Ptr, u: Trie, x: Ptr)
    requires PointPre(t, s, b) && x in t.st && x in u.st && u.pre.Keys == u.st.Keys && x != At(t, s)
    requires s.EntSlot? ==> s.v != IMMEDIATE
    requires u.st[x] == PointStore(t, s, b)[x]
    requires b in u.st && u.pre[b] == SlotLabel(t, s)
    requires forall q :: q in t.st && q != At(t, s) ==> q in u.st && u.pre[q] == t.pre[q]
    ensures Local(u.st, u.pre, x)
  {
    var p := At(t, s);
    assert Local(t.st, t.pre, x);
    SlotHolds(t, s);
    match t.st[x]
    case LeafCell(_) =>
    case EdgeCell(str, n) =>
      if n == p { OneSlot(t, s, NextSlot(x)); }
    case BranchCell(ents) =>
      forall v | v in u.st[x].ents ensures LocalEntry(u.st, u.pre, x, v, u.st[x].ents[v]) {
        assert v in ents && LocalEntry(t.st, t.pre, x, v, ents[v]);
        if ents[v] == p { OneSlot(t, s, EntSlot(x, v)); }
      }
  }

  /** Replace the edge in slot `s` by a one-entry branch that takes the edge's first nibble. */
  ghost function Unroll(t: Trie, s: Slot, b: Ptr, e: Ptr): Trie
    requires t.Labelled() && IsSlot(t, s) && IsEdgeAt(t, At(t, s)) && t.st[At(t, s)].str != []
  {
    var p := At(t, s);
    var str := t.st[p].str;
    var pre := (t.pre - {p})[b := t.pre[p]];
    t.(root := PointRoot(t, s, b),
       st := WithTail(t, p, 0, e, (PointStore(t, s, b) - {p})[b := BranchCell(map[str[0] := TailPtr(t, p, 0, e)])]),
       pre := if |str| == 1 then pre else pre[e := t.pre[p] + str[..1]])
  }

  ghost predicate UnrollPre(t: Trie, s: Slot, b: Ptr, e: Ptr) {
    && PointPre(t, s, b) && IsEdgeAt(t, At(t, s)) && t.st[At(t, s)].str != []
    && (|t.st[At(t, s)].str| > 1 ==> Fresh(t, e) && e.kind == Edge)
  }

  /** An immediate is a leaf, so any other pointer sits in an ordinary entry. */
  lemma NotInImmediate(t: Trie, s: Slot)
    requires t.Inv() && IsSlot(t, s) && At(t, s).kind != None && At(t, s).kind != Leaf
    ensures s.EntSlot? ==> s.v != IMMEDIATE
  {
    if s.EntSlot? {
      assert Local(t.st, t.pre, s.branch);
      assert LocalEntry(t.st, t.pre, s.branch, s.v, At(t, s));
    }
  }

  lemma UnrollCovers(t: Trie, s: Slot, b: Ptr, e: Ptr, x: Ptr, y: Ptr)
    requires UnrollPre(t, s, b, e)
    requires x in Unroll(t, s, b, e).st && y in Unroll(t, s, b, e).st
    ensures Covers(Unroll(t, s, b, e).st, Unroll(t, s, b, e).pre, x, y)
  {
    hide CoversCell;
    hide Local;
    var p := At(t, s);
    SlotHolds(t, s);
    var str, next, tail := t.st[p].str, t.st[p].next, TailPtr(t, p, 0, e);
    assert t.pre[p] + str[..0] == t.pre[p];
    if x in t.st {
      if y in t.st {
        if x != y { PointOld(t, s, b, x, y); }
      } else {
        PointAbove(t, s, b, x);
        if y != b {
          assert Covers(t.st, t.pre, x, p) && Covers(t.st, t.pre, p, x);
          AboveCut(t.st[x], t.pre[x], x, t.pre[p], str, next, p, 1, e);
          AboveDeeper(PointStore(t, s, b)[x], t.pre[x], t.pre[p], b, t.pre[p] + str[..1], e);
        }
      }
    } else if y in t.st {
      assert Covers(t.st, t.pre, p, y);
      BelowCut(t.pre[p], str, next, 0, tail, t.pre[y], y, b);
    } else {
      WithinCut(t.pre[p], str, next, 0, tail, b);
    }
  }

  lemma UnrollLocal(t: Trie, s: Slot, b: Ptr, e: Ptr, x: Ptr)
    requires UnrollPre(t, s, b, e) && x in Unroll(t, s, b, e).st
    ensures Local(Unroll(t, s, b, e).st, Unroll(t, s, b, e).pre, x)
  {
    var u := Unroll(t, s, b, e);
    var p := At(t, s);
    SlotHolds(t, s);
    KindOfCell(t, p);
    NotInImmediate(t, s);
    if x in t.st {
      PointLocal(t, s, b, u, x);
    } else {
      UnrolledLocal(t, s, b, e, x);
    }
  }

  lemma UnrolledLocal(t: Trie, s: Slot, b: Ptr, e: Ptr, x: Ptr)
    requires UnrollPre(t, s, b, e) && x !in t.st && x in Unroll(t, s, b, e).st
    ensures Local(Unroll(t, s, b, e).st, Unroll(t, s, b, e).pre, x)
  {
    var u := Unroll(t, s, b, e);
    var p := At(t, s);
    var str, next := t.st[p].str, t.st[p].next;
    assert Local(t.st, t.pre, p);
    assert next in u.st && u.pre[next] == t.pre[p] + str;
    assert str[..1] == [str[0]];
    assert str == str[..1] + str[1..];
    assert t.pre[p] + str == (t.pre[p] + str[..1]) + str[1..];
  }

  lemma UnrollLabelled(t: Trie, s: Slot, b: Ptr, e: Ptr)
    requires UnrollPre(t, s, b, e)
    ensures Unroll(t, s, b, e).Labelled()
  {
    hide Local, Covers;
    SlotHolds(t, s);
    if At(t, s) == t.root { OneSlot(t, s, RootSlot); }
  }

  lemma UnrollHome(t: Trie, s: Slot, b: Ptr, e: Ptr)
    requires UnrollPre(t, s, b, e) && Unroll(t, s, b, e).Labelled()
    ensures Unroll(t, s, b, e).HomeOk()
  {
    hide Local, Covers;
    KindOfCell(t, At(t, s));
    KeepHome(t, Unroll(t, s, b, e));
  }

  lemma UnrollInv(t: Trie, s: Slot, b: Ptr, e: Ptr)
    requires UnrollPre(t, s, b, e)
    ensures Unroll(t, s, b, e).Inv()
  {
    hide Local, Covers, Unroll, Trie.HomeOk;
    UnrollLabelled(t, s, b, e);
    var u := Unroll(t, s, b, e);
    UnrollHome(t, s, b, e);
    forall x | x in u.st ensures Local(u.st, u.pre, x) { UnrollLocal(t, s, b, e, x); }
    forall x, y | x in u.st && y in u.st ensures Covers(u.st, u.pre, x, y) { UnrollCovers(t, s, b, e, x, y); }
  }

  lemma UnrollContent(t: Trie, s: Slot, b: Ptr, e: Ptr)
    requires UnrollPre(t, s, b, e)
    requires Unroll(t, s, b, e).Inv()
    ensures Unroll(t, s, b, e).Content() == t.Content()
  {
    hide Covers, Local;
    var u := Unroll(t, s, b, e);
    forall q | q in t.st && q.kind == Leaf ensures q in u.st && u.st[q] == t.st[q] {
      KindOfCell(t, q);
    }
    KeepContent(t, u);
  }

  /** Only an immediate's label ends in IMMEDIATE. */
  lemma PlainLabel(t: Trie, s: Slot)
    requires t.Inv() && IsSlot(t, s) && (s.EntSlot? ==> s.v != IMMEDIATE)
    ensures SlotLabel(t, s) != [] ==> SlotLabel(t, s)[|SlotLabel(t, s)| - 1] != IMMEDIATE
  {
    assert s.NextSlot? ==> Local(t.st, t.pre, s.edge);
  }

  /** Put the leaf of slot `s` under a new one-entry branch, as its immediate. */
  ghost function Wrap(t: Trie, s: Slot, b: Ptr): Trie
    requires t.Labelled() && IsSlot(t, s) && At(t, s) in t.st
  {
    var p := At(t, s);
    t.(root := PointRoot(t, s, b),
       st := PointStore(t, s, b)[b := BranchCell(map[IMMEDIATE := p])],
       pre := t.pre[p := t.pre[p] + [IMMEDIATE]][b := t.pre[p]])
  }

  ghost predicate WrapPre(t: Trie, s: Slot, b: Ptr) {
    PointPre(t, s, b) && At(t, s).kind == Leaf && (s.EntSlot? ==> s.v != IMMEDIATE)
  }

  lemma WrapCovers(t: Trie, s: Slot, b: Ptr, x: Ptr, y: Ptr)
    requires WrapPre(t, s, b) && At(t, s) in t.st
    requires x in Wrap(t, s, b).st && y in Wrap(t, s, b).st
    ensures Covers(Wrap(t, s, b).st, Wrap(t, s, b).pre, x, y)
  {
    hide Local;
    var p := At(t, s);
    SlotHolds(t, s);
    KindOfCell(t, p);
    assert y in t.st ==> Covers(t.st, t.pre, p, y);
    assert x in t.st ==> Covers(t.st, t.pre, p, x);
    if x in t.st && x != p {
      if y in t.st && y != p {
        if x != y { PointOld(t, s, b, x, y); }
      } else {
        PointAbove(t, s, b, x);
        AboveDeeper(PointStore(t, s, b)[x], t.pre[x], t.pre[p], b, t.pre[p] + [IMMEDIATE], p);
      }
    }
  }

  lemma WrapLocal(t: Trie, s: Slot, b: Ptr, x: Ptr)
    requires WrapPre(t, s, b) && At(t, s) in t.st
    requires x in Wrap(t, s, b).st
    ensures Local(Wrap(t, s, b).st, Wrap(t, s, b).pre, x)
  {
    var u := Wrap(t, s, b);
    SlotHolds(t, s);
    KindOfCell(t, At(t, s));
    if x in t.st && x != At(t, s) {
      PointLocal(t, s, b, u, x);
    } else {
      assert LocalEntry(u.st, u.pre, b, IMMEDIATE, At(t, s));
    }
  }

  /** The stored leaf is still the leaf for its key. */
  lemma WrapHome(t: Trie, s: Slot, b: Ptr)
    requires WrapPre(t, s, b) && At(t, s) in t.st
    requires Wrap(t, s, b).Labelled()
    ensures Wrap(t, s, b).HomeOk()
  {
    var p := At(t, s);
    SlotHolds(t, s);
    PlainLabel(t, s);
    assert (t.leafKey[p] + [IMMEDIATE])[|t.leafKey[p]|] == IMMEDIATE;
  }

  lemma WrapInv(t: Trie, s: Slot, b: Ptr)
    requires WrapPre(t, s, b)
    ensures At(t, s) in t.st && Wrap(t, s, b).Inv()
  {
    hide Local;
    hide Covers;
    SlotHolds(t, s);
    var u := Wrap(t, s, b);
    forall x | x in u.st ensures Local(u.st, u.pre, x) { WrapLocal(t, s, b, x); }
    forall x, y | x in u.st && y in u.st ensures Covers(u.st, u.pre, x, y) { WrapCovers(t, s, b, x, y); }
    if At(t, s) == t.root { OneSlot(t, s, RootSlot); }
    WrapHome(t, s, b);
  }

  lemma WrapContent(t: Trie, s: Slot, b: Ptr)
    requires WrapPre(t, s, b) && At(t, s) in t.st
    requires Wrap(t, s, b).Inv()
    ensures Wrap(t, s, b).Content() == t.Content()
  {
    hide Covers, Local;
    var u := Wrap(t, s, b);
    forall q | q in t.st && q.kind == Leaf ensures q in u.st && u.st[q] == t.st[q] {
      KindOfCell(t, q);
    }
    KeepContent(t, u);
  }

  /** Move the branch of slot `s` to the new pointer `b`: what growth to a wider kind does. */
  ghost function Rename(t: Trie, s: Slot, b: Ptr): Trie
    requires t.Labelled() && IsSlot(t, s) && At(t, s) in t.st
  {
    var p := At(t, s);
    t.(root := PointRoot(t, s, b),
       st := (PointStore(t, s, b) - {p})[b := t.st[p]],
       pre := (t.pre - {p})[b := t.pre[p]])
  }

  ghost predicate RenamePre(t: Trie, s: Slot, b: Ptr) {
    PointPre(t, s, b) && At(t, s).kind.IsBranch()
  }

  lemma RenameCovers(t: Trie, s: Slot, b: Ptr, x: Ptr, y: Ptr)
    requires RenamePre(t, s, b) && At(t, s) in t.st
    requires x in Rename(t, s, b).st && y in Rename(t, s, b).st
    ensures Covers(Rename(t, s, b).st, Rename(t, s, b).pre, x, y)
  {
    hide Local;
    hide CoversCell;
    var p := At(t, s);
    SlotHolds(t, s);
    if x in t.st {
      if y in t.st {
        if x != y { PointOld(t, s, b, x, y); }
      } else {
        PointAbove(t, s, b, x);
      }
    } else if y in t.st {
      assert Covers(t.st, t.pre, p, y);
    }
  }

  lemma RenameLocal(t: Trie, s: Slot, b: Ptr, x: Ptr)
    requires RenamePre(t, s, b) && At(t, s) in t.st
    requires x in Rename(t, s, b).st
    ensures Local(Rename(t, s, b).st, Rename(t, s, b).pre, x)
  {
    var u := Rename(t, s, b);
    var p := At(t, s);
    SlotHolds(t, s);
    NotInImmediate(t, s);
    if x in t.st {
      PointLocal(t, s, b, u, x);
    } else {
      assert Local(t.st, t.pre, p);
      forall v | v in u.st[b].ents ensures LocalEntry(u.st, u.pre, b, v, u.st[b].ents[v]) {
        assert LocalEntry(t.st, t.pre, p, v, t.st[p].ents[v]);
      }
    }
  }

  lemma RenameLabelled(t: Trie, s: Slot, b: Ptr)
    requires RenamePre(t, s, b)
    ensures At(t, s) in t.st && Rename(t, s, b).Labelled()
  {
    hide Local, Covers, Trie.HomeOk;
    SlotHolds(t, s);
    if At(t, s) == t.root { OneSlot(t, s, RootSlot); }
  }

  lemma RenameHome(t: Trie, s: Slot, b: Ptr)
    requires RenamePre(t, s, b) && At(t, s) in t.st && Rename(t, s, b).Labelled()
    ensures Rename(t, s, b).HomeOk()
  {
    hide Local, Covers;
    var u := Rename(t, s, b);
    forall p | p in t.leafKey ensures p in u.st && u.pre[p] == t.pre[p] && p.kind == Leaf {
      SlotHolds(t, s);
    }
    forall p | p in u.st && p.kind == Leaf ensures p in t.leafKey {}
  }

  lemma RenameInv(t: Trie, s: Slot, b: Ptr)
    requires RenamePre(t, s, b)
    ensures At(t, s) in t.st && Rename(t, s, b).Inv()
  {
    hide Local;
    hide Covers;
    SlotHolds(t, s);
    var u := Rename(t, s, b);
    RenameLabelled(t, s, b);
    RenameHome(t, s, b);
    forall x | x in u.st ensures Local(u.st, u.pre, x) { RenameLocal(t, s, b, x); }
    forall x, y | x in u.st && y in u.st ensures Covers(u.st, u.pre, x, y) { RenameCovers(t, s, b, x, y); }
  }

  lemma RenameContent(t: Trie, s: Slot, b: Ptr)
    requires RenamePre(t, s, b) && At(t, s) in t.st
    requires Rename(t, s, b).Inv()
    ensures Rename(t, s, b).Content() == t.Content()
  {
    hide Covers, Local;
    var u := Rename(t, s, b);
    forall q | q in t.st && q.kind == Leaf ensures q in u.st && u.st[q] == t.st[q] {
      KindOfCell(t, q);
    }
    KeepContent(t, u);
  }

  // ------------------------------------------------------------------
  // Storing a key
  // ------------------------------------------------------------------

  /** Where a new key leaves branch `b`: through nibble `w`, or as `b`'s immediate. */
  ghost predicate LeavesAt(t: Trie, b: Ptr, w: Sym, key: Key)
    requires b in t.pre
  {
    if w == IMMEDIATE then t.pre[b] == key else t.pre[b] + [w] <= key
  }

  ghost function LeafLabel(w: Sym, key: Key): Label {
    if w == IMMEDIATE then key + [IMMEDIATE] else key
  }

  /** The nibbles left for an edge once the branch has consumed its own. */
  ghost function Rest(t: Trie, b: Ptr, w: Sym, key: Key): Key
    requires b in t.pre && LeavesAt(t, b, w, key)
  {
    if w == IMMEDIATE then [] else key[|t.pre[b]| + 1..]
  }

  ghost predicate AddPre(t: Trie, b: Ptr, w: Sym, key: Key, l: Ptr, e: Ptr) {
    && t.Inv() && b in t.st && t.st[b].BranchCell? && w !in t.st[b].ents && LeavesAt(t, b, w, key) && key != []
    && Fresh(t, l) && l.kind == Leaf && (Rest(t, b, w, key) != [] ==> Fresh(t, e) && e.kind == Edge)
  }

  /** The store with a new leaf `l`, under a new edge `e` for `rest` unless nothing remains. */
  ghost function Hanging(st: Store, rest: Key, l: Ptr, e: Ptr, val: Value): Store {
    if rest == [] then st[l := LeafCell(val)] else st[l := LeafCell(val)][e := EdgeCell(rest, l)]
  }

  /** Hang a new leaf for `key` below branch `b`, under an edge when nibbles remain. */
  ghost function AddLeaf(t: Trie, b: Ptr, w: Sym, key: Key, l: Ptr, e: Ptr, val: Value): Trie
    requires AddPre(t, b, w, key, l, e)
  {
    var rest := Rest(t, b, w, key);
    var tail := if rest == [] then l else e;
    var pre := t.pre[l := LeafLabel(w, key)];
    Trie(t.root,
         Hanging(t.st[b := BranchCell(t.st[b].ents[w := tail])], rest, l, e, val),
         if rest == [] then pre else pre[e := t.pre[b] + [w]],
         t.home[key := l],
         t.leafKey[l := key])
  }

  /** Every label made for the new key starts with the branch's label and the new symbol. */
  lemma AddLabels(t: Trie, b: Ptr, w: Sym, key: Key, l: Ptr, e: Ptr)
    requires AddPre(t, b, w, key, l, e)
    ensures t.pre[b] + [w] <= LeafLabel(w, key)
    ensures (t.pre[b] + [w])[|t.pre[b]|] == w == LeafLabel(w, key)[|t.pre[b]|]
    ensures Rest(t, b, w, key) == [] ==> LeafLabel(w, key) == t.pre[b] + [w]
    ensures LeafLabel(w, key) == t.pre[b] + [w] + Rest(t, b, w, key)
  {
    assert w != IMMEDIATE ==> key == key[..|t.pre[b]| + 1] + key[|t.pre[b]| + 1..];
  }

  /** No cell but the branch itself is on the way to the new labels. */
  lemma AddUnused(t: Trie, b: Ptr, w: Sym, key: Key, l: Ptr, e: Ptr, x: Ptr, d: Label)
    requires AddPre(t, b, w, key, l, e) && x in t.st && x != b
    requires t.pre[b] + [w] <= d
    ensures !(t.pre[b] + [w] <= t.pre[x])
    ensures t.pre[x] <= d ==> |t.pre[x]| < |t.pre[b]|
  {
    assert Covers(t.st, t.pre, b, x);
    assert (t.pre[b] + [w])[|t.pre[b]|] == w;
    var k, m := t.pre[b], t.pre[x];
    assert m <= d && |m| >= |k| ==> k <= m;
    assert m <= d && |m| > |k| ==> k + [w] <= m;
  }

  lemma AddCovers(t: Trie, b: Ptr, w: Sym, key: Key, l: Ptr, e: Ptr, val: Value, x: Ptr, y: Ptr)
    requires AddPre(t, b, w, key, l, e)
    requires x in AddLeaf(t, b, w, key, l, e, val).st && y in AddLeaf(t, b, w, key, l, e, val).st
    ensures Covers(AddLeaf(t, b, w, key, l, e, val).st, AddLeaf(t, b, w, key, l, e, val).pre, x, y)
  {
    var u := AddLeaf(t, b, w, key, l, e, val);
    AddLabels(t, b, w, key, l, e);
    assert x in t.st && y in t.st ==> Covers(t.st, t.pre, x, y);
    if x in t.st && x != b && y !in t.st {
      assert Covers(t.st, t.pre, x, b);
      AddUnused(t, b, w, key, l, e, x, u.pre[y]);
      AboveDeeper(t.st[x], t.pre[x], t.pre[b], b, u.pre[y], y);
    } else if x !in t.st && y in t.st && y != b {
      AddUnused(t, b, w, key, l, e, y, u.pre[x]);
    }
  }

  lemma AddLocal(t: Trie, b: Ptr, w: Sym, key: Key, l: Ptr, e: Ptr, val: Value, x: Ptr)
    requires AddPre(t, b, w, key, l, e)
    requires x in AddLeaf(t, b, w, key, l, e, val).st
    ensures Local(AddLeaf(t, b, w, key, l, e, val).st, AddLeaf(t, b, w, key, l, e, val).pre, x)
  {
    var u := AddLeaf(t, b, w, key, l, e, val);
    AddLabels(t, b, w, key, l, e);
    if x in t.st {
      assert Local(t.st, t.pre, x);
      if x == b {
        forall v | v in u.st[b].ents ensures LocalEntry(u.st, u.pre, b, v, u.st[b].ents[v]) {
          assert v != w ==> LocalEntry(t.st, t.pre, b, v, t.st[b].ents[v]);
        }
      }
    }
  }

  /** A key that leaves the branch through an empty entry is not stored yet. */
  lemma AddIsNew(t: Trie, b: Ptr, w: Sym, key: Key, l: Ptr, e: Ptr)
    requires AddPre(t, b, w, key, l, e)
    ensures key !in t.home
  {
    if key in t.home {
      var q := t.home[key];
      AddLabels(t, b, w, key, l, e);
      KindOfCell(t, q);
      assert Covers(t.st, t.pre, b, q);
      AddUnused(t, b, w, key, l, e, q, key + [IMMEDIATE]);
    }
  }

  lemma AddHome(t: Trie, b: Ptr, w: Sym, key: Key, l: Ptr, e: Ptr, val: Value)
    requires AddPre(t, b, w, key, l, e)
    ensures key !in t.home
    ensures AddLeaf(t, b, w, key, l, e, val).HomeOk()
  {
    hide Local, Covers;
    AddIsNew(t, b, w, key, l, e);
    KindOfCell(t, b);
    AddKeepsHome(t, b, w, key, l, e, val);
  }

  /** One more key keeps the correspondence of keys and leaves. */
  lemma HomeGrows(t: Trie, u: Trie, key: Key, l: Ptr)
    requires t.pre.Keys == t.st.Keys && t.HomeOk() && u.pre.Keys == u.st.Keys
    requires u.home == t.home[key := l] && u.leafKey == t.leafKey[l := key]
    requires key != [] && key !in t.home && l !in t.leafKey
    requires l in u.st && l.kind == Leaf && LabelsLeaf(u.pre[l], key)
    requires forall p :: p in t.leafKey ==> p in u.st && u.pre[p] == t.pre[p]
    requires forall p :: p in u.st && p.kind == Leaf ==> p == l || p in t.st
    ensures u.HomeOk()
  {
    forall k | k in u.home ensures k != [] && u.home[k] in u.leafKey && u.leafKey[u.home[k]] == k {
      assert k != key ==> t.home[k] in t.leafKey;
    }
    forall p | p in u.leafKey
      ensures p in u.st && p.kind == Leaf && u.leafKey[p] in u.home && u.home[u.leafKey[p]] == p && LabelsLeaf(u.pre[p], u.leafKey[p])
    {
      assert p != l ==> t.leafKey[p] in t.home;
    }
  }

  lemma AddKeepsHome(t: Trie, b: Ptr, w: Sym, key: Key, l: Ptr, e: Ptr, val: Value)
    requires AddPre(t, b, w, key, l, e) && key !in t.home && t.st[b].BranchCell? && b.kind.IsBranch()
    ensures AddLeaf(t, b, w, key, l, e, val).HomeOk()
  {
    hide Local, Covers, Trie.HomeOk, Rest;
    var u := AddLeaf(t, b, w, key, l, e, val);
    assert u.pre.Keys == u.st.Keys;
    forall p | p in t.leafKey ensures p != l && p in u.st && p in t.pre && u.pre[p] == t.pre[p] {
      LeafIsLive(t, p);
    }
    HomeGrows(t, u, key, l);
  }

  lemma LeafIsLive(t: Trie, p: Ptr)
    requires t.pre.Keys == t.st.Keys && t.HomeOk() && p in t.leafKey
    ensures p in t.st && p.kind == Leaf
  {
  }

  lemma AddLabelled(t: Trie, b: Ptr, w: Sym, key: Key, l: Ptr, e: Ptr, val: Value)
    requires AddPre(t, b, w, key, l, e)
    ensures AddLeaf(t, b, w, key, l, e, val).Labelled()
  {
    hide Local, Covers;
    KindOfCell(t, b);
  }

  lemma AddLeafInv(t: Trie, b: Ptr, w: Sym, key: Key, l: Ptr, e: Ptr, val: Value)
    requires AddPre(t, b, w, key, l, e)
    ensures key !in t.home
    ensures AddLeaf(t, b, w, key, l, e, val).Inv()
    ensures AddLeaf(t, b, w, key, l, e, val).Content() == t.Content()[key := val]
  {
    hide Local, Covers, AddLeaf, Trie.HomeOk;
    AddLabelled(t, b, w, key, l, e, val);
    var u := AddLeaf(t, b, w, key, l, e, val);
    forall x | x in u.st ensures Local(u.st, u.pre, x) { AddLocal(t, b, w, key, l, e, val, x); }
    forall x, y | x in u.st && y in u.st ensures Covers(u.st, u.pre, x, y) { AddCovers(t, b, w, key, l, e, val, x, y); }
    AddHome(t, b, w, key, l, e, val);
    AddContent(t, b, w, key, l, e, val);
  }

  lemma AddContent(t: Trie, b: Ptr, w: Sym, key: Key, l: Ptr, e: Ptr, val: Value)
    requires AddPre(t, b, w, key, l, e)
    requires AddLeaf(t, b, w, key, l, e, val).Inv()
    ensures AddLeaf(t, b, w, key, l, e, val).Content() == t.Content()[key := val]
  {
    hide Local;
    hide Covers;
    var u := AddLeaf(t, b, w, key, l, e, val);
    KindOfCell(t, b);
    forall q | q in t.st && q.kind == Leaf && q != l ensures q in u.st && u.st[q] == t.st[q] {}
    StoreContent(t, u, key, l, val);
  }

  /** Where a key is stored. */
  lemma StoredAt(t: Trie, k: Key)
    requires t.Inv() && k in t.home
    ensures t.home[k] in t.st && t.home[k].kind == Leaf && t.st[t.home[k]].LeafCell?
    ensures t.leafKey[t.home[k]] == k && k in t.Content() && t.Content()[k] == t.st[t.home[k]].val
  {
    hide Covers;
    KindOfCell(t, t.home[k]);
  }

  /** Two trees whose leaves agree stand for the same map, up to the leaf just written. */
  lemma StoreContent(t: Trie, u: Trie, key: Key, l: Ptr, val: Value)
    requires t.Inv() && u.Inv()
    requires u.home == t.home[key := l] && l in u.st && u.st[l] == LeafCell(val)
    requires forall q :: q in t.st && q.kind == Leaf && q != l ==> q in u.st && u.st[q] == t.st[q]
    ensures u.Content() == t.Content()[key := val]
  {
    hide Trie.Inv, Trie.Content;
    ContentKeys(t);
    ContentKeys(u);
    StoredAt(u, key);
    var c := t.Content()[key := val];
    forall k | k in u.Content() ensures k in c && u.Content()[k] == c[k] {
      StoredAt(u, k);
      if k != key {
        StoredAt(t, k);
        LeafOfOther(u, key, k);
      }
    }
  }

  lemma ContentKeys(t: Trie)
    requires t.Inv()
    ensures t.Content().Keys == t.home.Keys
  {
    hide Local, Covers, Trie.HomeOk;
  }

  lemma LeafOfOther(u: Trie, key: Key, k: Key)
    requires u.Inv() && key in u.home && k in u.home && k != key
    ensures u.home[k] != u.home[key]
  {
    hide Local, Covers;
  }

  /** Overwrite the value of a stored key. */
  ghost function SetLeaf(t: Trie, l: Ptr, val: Value): Trie {
    t.(st := t.st[l := LeafCell(val)])
  }

  lemma SetLeafInv(t: Trie, key: Key, val: Value)
    requires t.Inv() && key in t.home
    ensures SetLeaf(t, t.home[key], val).Inv()
    ensures SetLeaf(t, t.home[key], val).Content() == t.Content()[key := val]
  {
    hide Covers;
    hide CoversCell;
    hide Local;
    var l := t.home[key];
    var u := SetLeaf(t, l, val);
    KindOfCell(t, l);
    forall x | x in u.st ensures Local(u.st, u.pre, x) { SetLeafLocal(t, l, val, x); }
    forall x, y | x in u.st && y in u.st ensures Covers(u.st, u.pre, x, y) { SetLeafCovers(t, l, val, x, y); }
    StoreContent(t, u, key, l, val);
  }

  lemma SetLeafLocal(t: Trie, l: Ptr, val: Value, x: Ptr)
    requires t.Inv() && l in t.st && t.st[l].LeafCell? && x in t.st
    ensures Local(SetLeaf(t, l, val).st, t.pre, x)
  {
    assert Local(t.st, t.pre, x);
    if t.st[x].BranchCell? {
      forall v | v in t.st[x].ents ensures LocalEntry(SetLeaf(t, l, val).st, t.pre, x, v, t.st[x].ents[v]) {
        assert LocalEntry(t.st, t.pre, x, v, t.st[x].ents[v]);
      }
    }
  }

  lemma SetLeafCovers(t: Trie, l: Ptr, val: Value, x: Ptr, y: Ptr)
    requires t.Inv() && l in t.st && t.st[l].LeafCell? && x in t.st && y in t.st
    ensures Covers(SetLeaf(t, l, val).st, t.pre, x, y)
  {
    assert Covers(t.st, t.pre, x, y);
  }

  /** The first key of an empty tree: one edge from the root to its leaf. */
  ghost function Plant(key: Key, l: Ptr, e: Ptr, val: Value): Trie {
    Trie(e, map[e := EdgeCell(key, l), l := LeafCell(val)], map[e := [], l := key], map[key := l], map[l := key])
  }

  lemma PlantInv(key: Key, l: Ptr, e: Ptr, val: Value)
    requires key != [] && l.kind == Leaf && e.kind == Edge
    ensures Plant(key, l, e, val).Inv()
    ensures Plant(key, l, e, val).Content() == map[key := val]
  {
    hide Local;
    hide Covers;
    var u := Plant(key, l, e, val);
    PlantCells(key, l, e, val);
    assert u.st.Keys == {e, l};
  }

  lemma PlantCells(key: Key, l: Ptr, e: Ptr, val: Value)
    requires key != [] && l.kind == Leaf && e.kind == Edge
    ensures var u := Plant(key, l, e, val);
            && u.st.Keys == u.pre.Keys == {e, l}
            && Local(u.st, u.pre, e) && Local(u.st, u.pre, l)
            && Covers(u.st, u.pre, e, l) && Covers(u.st, u.pre, l, e)
            && Covers(u.st, u.pre, e, e) && Covers(u.st, u.pre, l, l)
  {
    assert [] + key == key;
  }
}
