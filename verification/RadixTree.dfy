/** The adaptive radix tree: insertion along a recorded path, and lookup. */
module RadixTrees {
  import opened MachineInts
  import opened Trie
  import opened TrieInsert
  import opened TrieLookup
  import opened Nibbles
  import opened Arenas

  /** One step of the path an insertion has taken: the node, and the entry taken at a branch. */
  datatype PrevPtr = PrevPtr(node: Ptr, branchVal: Sym)

  /** The slot a path step stands for; the sentinel stands for the root. */
  ghost function SlotOf(p: PrevPtr): Slot {
    if p.node.kind == None then RootSlot
    else if p.node.kind == Edge then NextSlot(p.node)
    else EntSlot(p.node, p.branchVal)
  }

  /** The recorded path starts at the root sentinel or at an edge and then descends from branch
      to branch, each held by the slot recorded before it. */
  ghost predicate Chain(t: Trie, prev: seq<PrevPtr>) {
    && |prev| > 0 && !prev[0].node.kind.IsBranch()
    && (forall i :: 0 <= i < |prev| ==> prev[i].node.kind != Leaf && IsSlot(t, SlotOf(prev[i])))
    && (forall i :: 1 <= i < |prev| ==> prev[i].node.kind.IsBranch() && At(t, SlotOf(prev[i - 1])) == prev[i].node)
  }

  /** The slot the path ends in. */
  ghost function Here(prev: seq<PrevPtr>): Slot
    requires |prev| > 0
  {
    SlotOf(prev[|prev| - 1])
  }

  /** The root and store after slot `s` is made to hold `q`. */
  ghost function Pointed(t: Trie, s: Slot, q: Ptr): Trie
    requires IsSlot(t, s)
  {
    t.(root := PointRoot(t, s, q), st := PointStore(t, s, q))
  }

  /** The root and store after branch `b`, held by slot `s`, moves to `g` and takes `q` under `v`. */
  ghost function Moved(t: Trie, s: Slot, b: Ptr, v: Sym, q: Ptr, g: Ptr): Trie
    requires IsSlot(t, s) && b in t.st && t.st[b].BranchCell?
  {
    t.(root := PointRoot(t, s, g),
       st := (PointStore(t, s, g) - {b})[g := BranchCell(t.st[b].ents[v := q])])
  }

  /** The store after branch `b` moves to `g` and takes `q` under `v`, before anything points to `g`. */
  ghost function Widened(t: Trie, b: Ptr, v: Sym, q: Ptr, g: Ptr): Trie
    requires b in t.st && t.st[b].BranchCell?
  {
    t.(st := (t.st - {b})[g := BranchCell(t.st[b].ents[v := q])])
  }

  /** `g` is a new pointer of the kind the full branch of slot `s` grows to. */
  ghost predicate GrownFrom(t: Trie, s: Slot, g: Ptr)
    requires IsSlot(t, s)
  {
    s.EntSlot? && g !in t.st && g.kind == GrownKind(s.branch.kind, t.st[s.branch].ents, s.v)
  }

  /** A slot can be pointed elsewhere without its branch growing. */
  ghost predicate HasRoom(t: Trie, s: Slot)
    requires IsSlot(t, s)
  {
    s.EntSlot? ==> Fits(s.branch.kind, t.st[s.branch].ents, s.v)
  }

  /** The slot the path ends in can be written: if its branch has to grow, the slot holding that
      branch never has to grow in turn. */
  ghost predicate CanSetPrev(t: Trie, prev: seq<PrevPtr>) {
    && |prev| > 0 && prev[|prev| - 1].node.kind != Leaf && IsSlot(t, Here(prev))
    && (!HasRoom(t, Here(prev)) ==>
          && |prev| > 1 && prev[|prev| - 2].node.kind != Leaf
          && var s := SlotOf(prev[|prev| - 2]);
          && IsSlot(t, s) && At(t, s) == prev[|prev| - 1].node && HasRoom(t, s)
          && (s.NextSlot? ==> s.edge != At(t, s)) && (s.EntSlot? ==> s.branch != At(t, s)))
  }

  /** After a branch has widened, the slot that held it has room for the new pointer. */
  lemma WidenedSlot(t: Trie, path: seq<PrevPtr>, q: Ptr, g: Ptr)
    requires CanSetPrev(t, path) && !HasRoom(t, Here(path)) && GrownFrom(t, Here(path), g)
    ensures |path| > 1
    ensures var s, b := SlotOf(path[|path| - 2]), Here(path).branch;
            var now := Widened(t, b, Here(path).v, q, g);
            IsSlot(now, s) && HasRoom(now, s) && Pointed(now, s, g) == Moved(t, s, b, Here(path).v, q, g)
  {
  }

  /** A recorded path can be written through. */
  lemma ChainCanSet(t: Trie, path: seq<PrevPtr>)
    requires t.Inv() && NormalForm(t.st) && Chain(t, path)
    ensures CanSetPrev(t, path)
  {
    if !HasRoom(t, Here(path)) {
      var s := SlotOf(path[|path| - 2]);
      SlotHolds(t, s);
      KindOfCell(t, At(t, s));
      NotInImmediate(t, s);
      assert s.EntSlot? ==> NodeOk(s.branch, t.st[s.branch]);
    }
  }

  ghost predicate Extends(t: Trie, u: Trie) {
    u.root == t.root && forall p :: p in t.st ==> p in u.st && u.st[p] == t.st[p]
  }

  /** Allocation does not disturb the path. */
  lemma ExtendsCanSet(t: Trie, u: Trie, path: seq<PrevPtr>)
    requires CanSetPrev(t, path) && Extends(t, u)
    ensures CanSetPrev(u, path)
  {
  }

  /** Nor does it change whether a branch has room, or what it grows to. */
  lemma ExtendsRoom(t: Trie, u: Trie, s: Slot, g: Ptr)
    requires Extends(t, u) && IsSlot(t, s)
    ensures IsSlot(u, s) && (HasRoom(u, s) <==> HasRoom(t, s))
    ensures GrownFrom(u, s, g) ==> GrownFrom(t, s, g)
  {
  }

  lemma HangExtends(t: Trie, rest: Key, l: Ptr, q: Ptr, val: Value)
    requires FreshTail(t.st, rest, l, q)
    ensures Extends(t, t.(st := Hanging(t.st, rest, l, q, val)))
  {
  }

  /** A key that runs into an empty entry can be added there. */
  lemma EmptyEntry(t: Trie, s: Slot, key: Key, i: nat, l: Ptr, q: Ptr)
    requires t.Inv() && key != [] && OnPath(t, s, key, i) && At(t, s).kind == None && s.EntSlot?
    requires Fresh(t, l) && l.kind == Leaf && (i < |key| ==> Fresh(t, q) && q.kind == Edge)
    ensures s.branch in t.st && AddPre(t, s.branch, s.v, key, l, q)
    ensures Rest(t, s.branch, s.v, key) == key[i..]
  {
    PathLabel(t, s, key, i);
    KindOfCell(t, s.branch);
    var b := s.branch;
    assert Local(t.st, t.pre, b);
    assert s.v in t.st[b].ents ==> LocalEntry(t.st, t.pre, b, s.v, t.st[b].ents[s.v]);
    if s.v in t.st[b].ents { KindOfCell(t, t.st[b].ents[s.v]); }
    if s.v == IMMEDIATE {
      assert t.pre[b] == (t.pre[b] + [IMMEDIATE])[..|t.pre[b]|];
      assert key == (key + [IMMEDIATE])[..|key|];
    }
  }

  /** An edge always leads somewhere. */
  lemma EdgeLeads(t: Trie, p: Ptr)
    requires t.Inv() && p in t.st && t.st[p].EdgeCell?
    ensures t.st[p].next in t.st && t.st[p].next.kind != None && t.st[p].str != []
  {
    assert Local(t.st, t.pre, p);
    KindOfCell(t, t.st[p].next);
  }

  ghost predicate FreshTail(st: Store, rest: Key, l: Ptr, q: Ptr) {
    && l.kind == Leaf && l !in st
    && (if rest == [] then q == l else q.kind == Edge && q !in st)
  }

  ghost predicate SameShape(t: Trie, u: Trie) {
    t.root == u.root && t.st == u.st
  }

  // Hanging a new leaf touches no old cell.

  lemma HangKeeps(st: Store, rest: Key, l: Ptr, q: Ptr, val: Value, b: Ptr)
    requires FreshTail(st, rest, l, q) && b in st
    ensures b in Hanging(st, rest, l, q, val) && Hanging(st, rest, l, q, val)[b] == st[b]
  {
  }

  lemma HangSet(st: Store, rest: Key, l: Ptr, q: Ptr, val: Value, b: Ptr, c: Cell)
    requires FreshTail(st, rest, l, q) && b != l && b != q
    ensures Hanging(st[b := c], rest, l, q, val) == Hanging(st, rest, l, q, val)[b := c]
  {
  }

  lemma HangDrop(st: Store, rest: Key, l: Ptr, q: Ptr, val: Value, b: Ptr)
    requires FreshTail(st, rest, l, q) && b != l && b != q
    ensures Hanging(st - {b}, rest, l, q, val) == Hanging(st, rest, l, q, val) - {b}
  {
  }

  /** The shape of an addition, with the hanging pointer named. */
  lemma AddShape(t: Trie, b: Ptr, w: Sym, key: Key, l: Ptr, q: Ptr, val: Value)
    requires AddPre(t, b, w, key, l, q) && (Rest(t, b, w, key) == [] ==> q == l)
    ensures var u := AddLeaf(t, b, w, key, l, q, val);
            && u.root == t.root
            && u.st == Hanging(t.st[b := BranchCell(t.st[b].ents[w := q])], Rest(t, b, w, key), l, q, val)
  {
  }

  ghost predicate NonePre(t: Trie, path: seq<PrevPtr>, key: Key, i: nat, l: Ptr, q: Ptr) {
    && t.Inv() && NormalForm(t.st) && Chain(t, path) && key != []
    && OnPath(t, Here(path), key, i) && At(t, Here(path)).kind == None
    && FreshTail(t.st, key[i..], l, q)
  }

  /** `u` is a tree in normal form for the contents of `t` and the new key. */
  ghost predicate Stored(t: Trie, u: Trie, key: Key, val: Value)
    requires t.Inv()
  {
    u.Inv() && NormalForm(u.st) && u.Content() == t.Content()[key := val]
  }

  /** The first key of an empty tree. */
  lemma NoneRoot(t: Trie, path: seq<PrevPtr>, key: Key, i: nat, l: Ptr, q: Ptr, val: Value)
    requires NonePre(t, path, key, i, l, q) && Here(path).RootSlot?
    ensures Stored(t, Plant(key, l, q, val), key, val)
    ensures SameShape(Plant(key, l, q, val), Pointed(t.(st := Hanging(t.st, key[i..], l, q, val)), RootSlot, q))
  {
    PathLabel(t, Here(path), key, i);
    assert i == 0 && key[i..] == key;
    PlantOk(key, l, q, val);
  }

  /** A branch with room. */
  lemma NoneRoom(t: Trie, path: seq<PrevPtr>, key: Key, i: nat, l: Ptr, q: Ptr, val: Value)
    requires NonePre(t, path, key, i, l, q) && Here(path).EntSlot? && HasRoom(t, Here(path))
    ensures AddPre(t, Here(path).branch, Here(path).v, key, l, q)
    ensures var u := AddLeaf(t, Here(path).branch, Here(path).v, key, l, q, val);
            && Stored(t, u, key, val)
            && SameShape(u, Pointed(t.(st := Hanging(t.st, key[i..], l, q, val)), Here(path), q))
  {
    hide Covers, Local, Hanging, AddPre, LeavesAt;
    var s := Here(path);
    EmptyEntry(t, s, key, i, l, q);
    AddHereOk(t, s.branch, s.v, key, l, q, val);
    AddShape(t, s.branch, s.v, key, l, q, val);
    HangKeeps(t.st, key[i..], l, q, val, s.branch);
    HangSet(t.st, key[i..], l, q, val, s.branch, BranchCell(t.st[s.branch].ents[s.v := q]));
  }

  lemma HangPoint(t: Trie, rest: Key, l: Ptr, q: Ptr, val: Value, s: Slot, g: Ptr)
    requires IsSlot(t, s) && FreshTail(t.st, rest, l, q)
    ensures IsSlot(t.(st := Hanging(t.st, rest, l, q, val)), s)
    ensures PointStore(t.(st := Hanging(t.st, rest, l, q, val)), s, g) == Hanging(PointStore(t, s, g), rest, l, q, val)
    ensures FreshTail(PointStore(t, s, g), rest, l, q)
  {
    hide Hanging;
    if !s.RootSlot? {
      HangKeeps(t.st, rest, l, q, val, Owner(s));
      HangSet(t.st, rest, l, q, val, Owner(s), PointStore(t, s, g)[Owner(s)]);
    }
  }

  lemma HangMoved(t: Trie, rest: Key, l: Ptr, q: Ptr, val: Value, s: Slot, b: Ptr, v: Sym, g: Ptr)
    requires IsSlot(t, s) && FreshTail(t.st, rest, l, q) && b in t.st && t.st[b].BranchCell? && g != l && g != q
    ensures var t1 := t.(st := Hanging(t.st, rest, l, q, val));
            && IsSlot(t1, s) && b in t1.st && t1.st[b] == t.st[b]
            && Moved(t1, s, b, v, q, g).st
               == Hanging((PointStore(t, s, g) - {b})[g := BranchCell(t.st[b].ents[v := q])], rest, l, q, val)
  {
    hide Hanging;
    HangPoint(t, rest, l, q, val, s, g);
    HangKeeps(t.st, rest, l, q, val, b);
    HangDrop(PointStore(t, s, g), rest, l, q, val, b);
    HangSet(PointStore(t, s, g) - {b}, rest, l, q, val, g, BranchCell(t.st[b].ents[v := q]));
  }

  /** What a renamed branch held does not matter when it is written again. */
  lemma RenamedTwice(t: Trie, s: Slot, g: Ptr, b: Ptr, c: Cell)
    requires t.Labelled() && IsSlot(t, s) && b == At(t, s) && b in t.st
    ensures Rename(t, s, g).st[g := c] == (PointStore(t, s, g) - {b})[g := c]
  {
  }

  /** A branch without room. */
  lemma NoneGrow(t: Trie, path: seq<PrevPtr>, key: Key, i: nat, l: Ptr, q: Ptr, val: Value, g: Ptr)
    requires NonePre(t, path, key, i, l, q) && |path| > 1 && Here(path).EntSlot? && !HasRoom(t, Here(path))
    requires GrownFrom(t, Here(path), g)
    ensures GrowPre(t, SlotOf(path[|path| - 2]), g, Here(path).v, key, l, q)
    ensures IsSlot(t.(st := Hanging(t.st, key[i..], l, q, val)), SlotOf(path[|path| - 2]))
    ensures Here(path).branch in Hanging(t.st, key[i..], l, q, val)
    ensures Hanging(t.st, key[i..], l, q, val)[Here(path).branch].BranchCell?
    ensures var s := SlotOf(path[|path| - 2]);
            var u := Grow(t, s, g, Here(path).v, key, l, q, val);
            && Stored(t, u, key, val)
            && SameShape(u, Moved(t.(st := Hanging(t.st, key[i..], l, q, val)), s, Here(path).branch, Here(path).v, q, g))
  {
    hide Covers, Local, Hanging, AddPre, LeavesAt, AddLeaf;
    var s, b, v := SlotOf(path[|path| - 2]), Here(path).branch, Here(path).v;
    EmptyEntry(t, Here(path), key, i, l, q);
    GrowReady(t, path, key, i, l, q, g);
    GrowOk(t, s, g, v, key, l, q, val);
    GrowAdd(t, s, g, v, key, l, q);
    AddShape(Rename(t, s, g), g, v, key, l, q, val);
    RenamedTwice(t, s, g, b, BranchCell(t.st[b].ents[v := q]));
    HangMoved(t, key[i..], l, q, val, s, b, v, g);
  }

  /** The three ways a key can be put where nothing is stored. */
  lemma NoneDone(t: Trie, path: seq<PrevPtr>, key: Key, i: nat, l: Ptr, q: Ptr, val: Value, g: Ptr) returns (u: Trie)
    requires NonePre(t, path, key, i, l, q)
    requires g.kind == None <==> HasRoom(t, Here(path))
    requires g.kind != None ==> |path| > 1 && GrownFrom(t, Here(path), g)
    ensures Stored(t, u, key, val)
    ensures var t1 := t.(st := Hanging(t.st, key[i..], l, q, val));
            && IsSlot(t1, Here(path))
            && (g.kind == None ==> SameShape(u, Pointed(t1, Here(path), q)))
            && (g.kind != None ==>
                  && var s := SlotOf(path[|path| - 2]);
                  && IsSlot(t1, s) && Here(path).branch in t1.st && t1.st[Here(path).branch].BranchCell?
                  && SameShape(u, Moved(t1, s, Here(path).branch, Here(path).v, q, g)))
  {
    hide Covers, Local, Stored, Pointed, Moved, SameShape, Fits, AddPre, GrowPre;
    var s := Here(path);
    if s.RootSlot? {
      NoneRoot(t, path, key, i, l, q, val);
      u := Plant(key, l, q, val);
    } else if s.NextSlot? {
      EdgeLeads(t, s.edge);
      u := t;
    } else if g.kind == None {
      NoneRoom(t, path, key, i, l, q, val);
      u := AddLeaf(t, s.branch, s.v, key, l, q, val);
    } else {
      NoneGrow(t, path, key, i, l, q, val, g);
      u := Grow(t, SlotOf(path[|path| - 2]), g, s.v, key, l, q, val);
    }
  }

  lemma GrowReady(t: Trie, path: seq<PrevPtr>, key: Key, i: nat, l: Ptr, q: Ptr, g: Ptr)
    requires t.Inv() && NormalForm(t.st) && Chain(t, path) && |path| > 1 && Here(path).EntSlot?
    requires AddPre(t, Here(path).branch, Here(path).v, key, l, q)
    requires !HasRoom(t, Here(path)) && GrownFrom(t, Here(path), g)
    ensures GrowPre(t, SlotOf(path[|path| - 2]), g, Here(path).v, key, l, q)
  {
    KindOfCell(t, Here(path).branch);
  }

  /** The store with a new edge `e` for `rest`, unless nothing remains. */
  ghost function TailStore(st: Store, rest: Key, e: Ptr, next: Ptr): Store {
    if rest == [] then st else st[e := EdgeCell(rest, next)]
  }

  /** The cells an insertion has allocated when it replaces the edge of slot `s`: a tail for the
      old edge, a hanging leaf for the key, a branch of both; and the edge given back. */
  ghost function Replaced(t: Trie, p: Ptr, e1: Ptr, v: Sym, rest: Key, l: Ptr, q: Ptr, w: Sym, val: Value, b: Ptr): Trie
    requires IsEdgeAt(t, p) && t.st[p].str != []
  {
    var st1 := Hanging(TailStore(t.st, t.st[p].str[1..], e1, t.st[p].next), rest, l, q, val);
    t.(st := st1[b := BranchCell(map[v := e1, w := q])] - {p})
  }

  /** The old tail is a new edge or the old target; the new cells are distinct from it. */
  ghost predicate FreshCells(t: Trie, rest1: Key, e1: Ptr, next: Ptr, rest: Key, l: Ptr, q: Ptr, b: Ptr) {
    && (if rest1 == [] then e1 == next && next in t.st else Fresh(t, e1) && e1.kind == Edge)
    && FreshTail(TailStore(t.st, rest1, e1, next), rest, l, q)
    && Fresh(t, b) && b.kind == Branch4
  }

  lemma UnrolledStore(t: Trie, s: Slot, e1: Ptr, w: Sym, q: Ptr, b: Ptr)
    requires t.Labelled() && IsSlot(t, s) && IsEdgeAt(t, At(t, s)) && t.st[At(t, s)].str != []
    requires s.NextSlot? ==> s.edge != At(t, s)
    requires Fresh(t, b) && (|t.st[At(t, s)].str| > 1 ==> Fresh(t, e1) && e1 != b)
    requires |t.st[At(t, s)].str| == 1 ==> e1 == t.st[At(t, s)].next
    ensures var p := At(t, s);
            var r := t.(st := TailStore(t.st, t.st[p].str[1..], e1, t.st[p].next)
                              [b := BranchCell(map[t.st[p].str[0] as Sym := e1][w := q])] - {p});
            && IsSlot(r, s) && PointRoot(r, s, b) == Unroll(t, s, b, e1).root
            && PointStore(r, s, b)
               == Unroll(t, s, b, e1).st[b := BranchCell(Unroll(t, s, b, e1).st[b].ents[w := q])]
  {
    var p := At(t, s);
    var c := BranchCell(map[t.st[p].str[0] as Sym := e1][w := q]);
    var r := t.(st := TailStore(t.st, t.st[p].str[1..], e1, t.st[p].next)[b := c] - {p});
    var u := Unroll(t, s, b, e1);
    assert u.st[b].BranchCell? && BranchCell(u.st[b].ents[w := q]) == c;
    assert IsSlot(r, s);
    forall x ensures x in PointStore(r, s, b) <==> x in u.st[b := c] {}
    forall x | x in PointStore(r, s, b) ensures PointStore(r, s, b)[x] == u.st[b := c][x] {}
  }

  lemma ReplacedShape(t: Trie, s: Slot, e1: Ptr, rest: Key, l: Ptr, q: Ptr, w: Sym, val: Value, b: Ptr)
    requires t.Labelled() && IsSlot(t, s) && IsEdgeAt(t, At(t, s)) && t.st[At(t, s)].str != []
    requires s.NextSlot? ==> s.edge != At(t, s)
    requires FreshCells(t, t.st[At(t, s)].str[1..], e1, t.st[At(t, s)].next, rest, l, q, b)
    requires t.st[At(t, s)].str[0] != w
    ensures var t1 := Replaced(t, At(t, s), e1, t.st[At(t, s)].str[0], rest, l, q, w, val, b);
            && IsSlot(t1, s)
            && Pointed(t1, s, b).st
               == Hanging(Unroll(t, s, b, e1).st[b := BranchCell(Unroll(t, s, b, e1).st[b].ents[w := q])], rest, l, q, val)
            && Pointed(t1, s, b).root == Unroll(t, s, b, e1).root
  {
    hide Hanging, Unroll;
    var p := At(t, s);
    var T := TailStore(t.st, t.st[p].str[1..], e1, t.st[p].next);
    var c := BranchCell(map[t.st[p].str[0] as Sym := e1][w := q]);
    UnrolledStore(t, s, e1, w, q, b);
    HangSet(T, rest, l, q, val, b, c);
    HangDrop(T[b := c], rest, l, q, val, p);
    HangPoint(t.(st := T[b := c] - {p}), rest, l, q, val, s, b);
  }

  /** The cells an insertion has allocated when it shortens edge `p` to `j` nibbles, and the edge. */
  ghost function Shortened(t: Trie, p: Ptr, j: nat, e1: Ptr, rest: Key, l: Ptr, q: Ptr, w: Sym, val: Value, b: Ptr): Trie
    requires IsEdgeAt(t, p) && j < |t.st[p].str|
  {
    var st1 := Hanging(TailStore(t.st, t.st[p].str[j + 1..], e1, t.st[p].next), rest, l, q, val);
    t.(st := st1[b := BranchCell(map[t.st[p].str[j] as Sym := e1, w := q])][p := EdgeCell(t.st[p].str[..j], b)])
  }

  lemma ShortenedShape(t: Trie, p: Ptr, j: nat, e1: Ptr, rest: Key, l: Ptr, q: Ptr, w: Sym, val: Value, b: Ptr)
    requires t.Labelled() && IsEdgeAt(t, p) && 0 < j < |t.st[p].str| && t.st[p].str[j] != w
    requires FreshCells(t, t.st[p].str[j + 1..], e1, t.st[p].next, rest, l, q, b)
    ensures var c := CutEdge(t, p, j, b, e1);
            && Shortened(t, p, j, e1, rest, l, q, w, val, b).root == c.root
            && Shortened(t, p, j, e1, rest, l, q, w, val, b).st
               == Hanging(c.st[b := BranchCell(c.st[b].ents[w := q])], rest, l, q, val)
  {
    hide Hanging;
    var T := TailStore(t.st, t.st[p].str[j + 1..], e1, t.st[p].next);
    var c := BranchCell(map[t.st[p].str[j] as Sym := e1][w := q]);
    HangSet(T, rest, l, q, val, b, c);
    HangSet(T[b := c], rest, l, q, val, p, EdgeCell(t.st[p].str[..j], b));
    assert T[b := c][p := EdgeCell(t.st[p].str[..j], b)] == CutEdge(t, p, j, b, e1).st[b := c];
  }

  /** The cells an insertion has allocated when it puts leaf `p` and the key under a new branch. */
  ghost function Beside(t: Trie, p: Ptr, rest: Key, l: Ptr, q: Ptr, w: Sym, val: Value, b: Ptr): Trie {
    t.(st := Hanging(t.st, rest, l, q, val)[b := BranchCell(map[IMMEDIATE := p, w := q])])
  }

  lemma WrapStore(t: Trie, s: Slot, b: Ptr, c: Cell)
    requires t.Labelled() && IsSlot(t, s) && At(t, s) in t.st && Fresh(t, b) && IsSlot(t.(st := t.st[b := c]), s)
    ensures PointStore(t.(st := t.st[b := c]), s, b) == Wrap(t, s, b).st[b := c]
  {
    var r, u := PointStore(t.(st := t.st[b := c]), s, b), Wrap(t, s, b).st[b := c];
    forall x ensures x in r <==> x in u {}
    forall x | x in r && x in u ensures r[x] == u[x] {}
  }

  lemma BesideShape(t: Trie, s: Slot, rest: Key, l: Ptr, q: Ptr, w: Sym, val: Value, b: Ptr)
    requires t.Labelled() && IsSlot(t, s) && At(t, s) in t.st && w != IMMEDIATE
    requires FreshTail(t.st, rest, l, q) && Fresh(t, b) && b.kind == Branch4
    ensures var t1 := Beside(t, At(t, s), rest, l, q, w, val, b);
            && IsSlot(t1, s)
            && Pointed(t1, s, b).root == Wrap(t, s, b).root
            && Pointed(t1, s, b).st
               == Hanging(Wrap(t, s, b).st[b := BranchCell(Wrap(t, s, b).st[b].ents[w := q])], rest, l, q, val)
  {
    hide Hanging;
    var c := BranchCell(map[IMMEDIATE := At(t, s)][w := q]);
    HangSet(t.st, rest, l, q, val, b, c);
    HangPoint(t.(st := t.st[b := c]), rest, l, q, val, s, b);
    WrapStore(t, s, b, c);
  }

  // The three ways a key is stored beside what is there already.

  /** The nibbles of the key left once it has gone through `w` at a branch labelled `k`. */
  ghost predicate RestAt(k: Label, w: Sym, key: Key, rest: Key) {
    if w == IMMEDIATE then k == key && rest == [] else k + [w] + rest == key
  }

  lemma ReplacedDone(t: Trie, s: Slot, key: Key, rest: Key, e1: Ptr, l: Ptr, q: Ptr, w: Sym, val: Value, b: Ptr)
    returns (u: Trie)
    requires t.Inv() && NormalForm(t.st) && key != []
    requires IsSlot(t, s) && IsEdgeAt(t, At(t, s)) && t.st[At(t, s)].str != [] && t.st[At(t, s)].str[0] != w
    requires FreshCells(t, t.st[At(t, s)].str[1..], e1, t.st[At(t, s)].next, rest, l, q, b)
    requires RestAt(SlotLabel(t, s), w, key, rest)
    ensures Stored(t, u, key, val)
    ensures var t1 := Replaced(t, At(t, s), e1, t.st[At(t, s)].str[0], rest, l, q, w, val, b);
            IsSlot(t1, s) && SameShape(u, Pointed(t1, s, b))
  {
    hide Covers, Local, Hanging, Unroll, AddLeaf, Replaced;
    KindOfCell(t, At(t, s));
    SlotHolds(t, s);
    SplitFirstOk(t, s, b, e1, w, key, l, q, val);
    SplitFirstAdd(t, s, b, e1, w, key, l, q);
    u := SplitFirst(t, s, b, e1, w, key, l, q, val);
    ReplacedShape(t, s, e1, rest, l, q, w, val, b);
    AddShape(Unroll(t, s, b, e1), b, w, key, l, q, val);
  }

  lemma ShortenedDone(t: Trie, p: Ptr, j: nat, key: Key, rest: Key, e1: Ptr, l: Ptr, q: Ptr, w: Sym, val: Value, b: Ptr)
    returns (u: Trie)
    requires t.Inv() && NormalForm(t.st) && key != []
    requires IsEdgeAt(t, p) && 0 < j < |t.st[p].str| && t.st[p].str[j] != w
    requires FreshCells(t, t.st[p].str[j + 1..], e1, t.st[p].next, rest, l, q, b)
    requires RestAt(t.pre[p] + t.st[p].str[..j], w, key, rest)
    ensures Stored(t, u, key, val)
    ensures SameShape(u, Shortened(t, p, j, e1, rest, l, q, w, val, b))
  {
    hide Covers, Local, Hanging, CutEdge, AddLeaf, Shortened;
    SplitMidOk(t, p, j, b, e1, w, key, l, q, val);
    SplitMidAdd(t, p, j, b, e1, w, key, l, q);
    u := SplitMid(t, p, j, b, e1, w, key, l, q, val);
    ShortenedShape(t, p, j, e1, rest, l, q, w, val, b);
    AddShape(CutEdge(t, p, j, b, e1), b, w, key, l, q, val);
  }

  lemma BesideDone(t: Trie, s: Slot, key: Key, rest: Key, l: Ptr, q: Ptr, w: Sym, val: Value, b: Ptr) returns (u: Trie)
    requires t.Inv() && NormalForm(t.st) && key != []
    requires IsSlot(t, s) && At(t, s) in t.st && At(t, s).kind == Leaf && (s.EntSlot? ==> s.v != IMMEDIATE)
    requires w != IMMEDIATE && FreshTail(t.st, rest, l, q) && Fresh(t, b) && b.kind == Branch4
    requires RestAt(SlotLabel(t, s), w, key, rest)
    ensures Stored(t, u, key, val)
    ensures var t1 := Beside(t, At(t, s), rest, l, q, w, val, b);
            IsSlot(t1, s) && SameShape(u, Pointed(t1, s, b))
  {
    hide Trie.AllLocal, Trie.AllCover, Trie.HomeOk, NormalForm, Hanging, Wrap, AddLeaf, Beside;
    ExtendOk(t, s, b, w, key, l, q, val);
    ExtendAdd(t, s, b, w, key, l, q);
    u := Extend(t, s, b, w, key, l, q, val);
    BesideShape(t, s, rest, l, q, w, val, b);
    AddShape(Wrap(t, s, b), b, w, key, l, q, val);
  }

  /** A slot in use can be pointed elsewhere in place: no branch grows to replace an entry. */
  lemma InUseHasRoom(t: Trie, s: Slot)
    requires t.Inv() && NormalForm(t.st) && IsSlot(t, s) && At(t, s).kind != None
    requires s.EntSlot? ==> s.v != IMMEDIATE
    ensures HasRoom(t, s)
  {
    if s.EntSlot? { KindOfCell(t, s.branch); }
  }

  /** The slot is untouched by what has been allocated for it. */
  lemma ReplacedSlot(t: Trie, s: Slot, e1: Ptr, rest: Key, l: Ptr, q: Ptr, w: Sym, val: Value, b: Ptr)
    requires IsSlot(t, s) && IsEdgeAt(t, At(t, s)) && t.st[At(t, s)].str != []
    requires s.NextSlot? ==> s.edge != At(t, s)
    requires FreshCells(t, t.st[At(t, s)].str[1..], e1, t.st[At(t, s)].next, rest, l, q, b)
    ensures var u := Replaced(t, At(t, s), e1, t.st[At(t, s)].str[0], rest, l, q, w, val, b);
            IsSlot(u, s) && (HasRoom(t, s) ==> HasRoom(u, s))
            && (s.EntSlot? && s.v in t.st[s.branch].ents ==> s.v in u.st[s.branch].ents)
  {
  }

  lemma BesideSlot(t: Trie, s: Slot, rest: Key, l: Ptr, q: Ptr, w: Sym, val: Value, b: Ptr)
    requires IsSlot(t, s) && FreshTail(t.st, rest, l, q) && Fresh(t, b)
    ensures var u := Beside(t, At(t, s), rest, l, q, w, val, b);
            IsSlot(u, s) && (HasRoom(t, s) ==> HasRoom(u, s))
  {
  }

  lemma BesideStands(t: Trie, p: Ptr, rest: Key, l: Ptr, q: Ptr, w: Sym, val: Value, b: Ptr)
    ensures Beside(t, p, rest, l, q, w, val, b)
         == t.(st := Hanging(t.st, rest, l, q, val)[b := BranchCell(map[IMMEDIATE := p, w := q])])
  {
  }

  /** Going on with the next nibble of the key. */
  lemma NextNibble(k: Label, key: Key, i: nat)
    requires i < |key| && k == key[..i]
    ensures RestAt(k, key[i], key, key[i + 1..])
  {
    assert key[..i] + [key[i]] + key[i + 1..] == key;
  }

  /** Where an insertion is: the path ends in the slot that holds `node`, after `i` nibbles. An edge
      is met only with nibbles left to compare, a leaf only with none. */
  ghost predicate Walk(t: Trie, prev: seq<PrevPtr>, node: Ptr, key: Key, i: nat)
    requires t.pre.Keys == t.st.Keys
  {
    && Chain(t, prev) && OnPath(t, Here(prev), key, i)
    && (At(t, Here(prev)) == node || (At(t, Here(prev)).kind == None && node.kind == None))
    && (node.kind == Edge ==> i < |key|)
    && (node.kind == Leaf ==> i == |key|)
  }

  lemma LeafDone(t: Trie, s: Slot, key: Key, val: Value)
    requires t.Inv() && NormalForm(t.st) && OnPath(t, s, key, |key|) && At(t, s).kind == Leaf
    ensures At(t, s) in t.st && Stored(t, SetLeaf(t, At(t, s), val), key, val)
  {
    LeafOnPath(t, s, key);
    SlotHolds(t, s);
    SetLeafOk(t, key, val);
  }

  /** The path after node `p` is pushed; an edge starts the path anew. */
  ghost function Pushed(prev: seq<PrevPtr>, node: Ptr, v: Sym): seq<PrevPtr> {
    (if node.kind == Edge then [] else prev) + [PrevPtr(node, v)]
  }

  /** Crossing an edge whose nibbles all match. */
  lemma WalkEdge(t: Trie, prev: seq<PrevPtr>, p: Ptr, key: Key, i: nat, k: nat)
    requires t.Inv() && NormalForm(t.st) && Walk(t, prev, p, key, i) && p.kind == Edge
    requires p in t.st && t.st[p].EdgeCell? && i <= k <= |key| && t.st[p].str == key[i..k]
    requires t.st[p].next.kind == Leaf ==> k == |key|
    ensures Walk(t, Pushed(prev, p, IMMEDIATE), t.st[p].next, key, k)
  {
    SlotHolds(t, Here(prev));
    PathLabel(t, Here(prev), key, i);
    EdgeLeads(t, p);
    assert NodeOk(p, t.st[p]);
    assert key[..i] + key[i..k] == key[..k];
  }

  /** The branch the walk is at hangs where the path ends. */
  lemma BranchThere(t: Trie, prev: seq<PrevPtr>, p: Ptr, key: Key, i: nat)
    requires t.Inv() && Walk(t, prev, p, key, i) && p.kind.IsBranch()
    ensures p in t.st && t.st[p].BranchCell? && Chain(t, prev) && At(t, Here(prev)) == p && i <= |key|
  {
    SlotHolds(t, Here(prev));
    KindOfCell(t, p);
  }

  /** Taking entry `v` of a branch. */
  lemma WalkBranch(t: Trie, prev: seq<PrevPtr>, p: Ptr, key: Key, i: nat, v: Sym, k: nat, q: Ptr)
    requires t.Inv() && Walk(t, prev, p, key, i) && p.kind.IsBranch() && p in t.st && t.st[p].BranchCell?
    requires if v == IMMEDIATE then i == k == |key| else i < |key| && v == key[i] && k == i + 1
    requires if v in t.st[p].ents then q == t.st[p].ents[v] else q.kind == None
    requires q.kind == Edge ==> k < |key|
    requires q.kind == Leaf ==> k == |key|
    ensures Walk(t, Pushed(prev, p, v), q, key, k)
  {
    SlotHolds(t, Here(prev));
    PathLabel(t, Here(prev), key, i);
    NotInImmediate(t, Here(prev));
    var path := Pushed(prev, p, v);
    assert forall j :: 0 <= j < |prev| ==> path[j] == prev[j];
    assert v == IMMEDIATE ==> key[..i] == key;
    assert v != IMMEDIATE ==> key[..i] + [v] == key[..k];
  }

  /** The slot of entry `v` is on the path. */
  lemma EntryOnPath(t: Trie, prev: seq<PrevPtr>, p: Ptr, key: Key, i: nat, v: Nib)
    requires t.Inv() && Walk(t, prev, p, key, i) && p.kind.IsBranch() && p in t.st && t.st[p].BranchCell?
    requires i < |key| && v == key[i] && v in t.st[p].ents
    ensures OnPath(t, EntSlot(p, v), key, i + 1)
    ensures t.st[p].ents[v].kind != None && t.st[p].ents[v] in t.st
    ensures t.st[p].ents[v].kind == Edge ==> t.st[t.st[p].ents[v]].EdgeCell?
  {
    SlotHolds(t, Here(prev));
    PathLabel(t, Here(prev), key, i);
    NotInImmediate(t, Here(prev));
    assert Local(t.st, t.pre, p) && LocalEntry(t.st, t.pre, p, v, t.st[p].ents[v]);
    KindOfCell(t, t.st[p].ents[v]);
    assert key[..i] + [v] == key[..i + 1];
  }

  lemma ImmediateIsLeaf(t: Trie, p: Ptr)
    requires t.Inv() && p in t.st && t.st[p].BranchCell?
    ensures IMMEDIATE in t.st[p].ents ==> t.st[p].ents[IMMEDIATE].kind == Leaf
  {
    assert Local(t.st, t.pre, p);
    assert IMMEDIATE in t.st[p].ents ==> LocalEntry(t.st, t.pre, p, IMMEDIATE, t.st[p].ents[IMMEDIATE]);
  }

  lemma WalkEnds(t: Trie, prev: seq<PrevPtr>, node: Ptr, key: Key, i: nat)
    requires t.pre.Keys == t.st.Keys && Walk(t, prev, node, key, i)
    ensures |prev| > 0 && Chain(t, prev) && OnPath(t, Here(prev), key, i)
    ensures At(t, Here(prev)) == node || (At(t, Here(prev)).kind == None && node.kind == None)
    ensures node.kind == Leaf ==> i == |key|
  {
  }

  lemma GetStart(t: Trie, key: Key)
    requires t.Inv() && t.root.kind != None
    ensures t.pre.Keys == t.st.Keys && GetAt(t, t.root, key, 0)
  {
  }

  /** The cell where a lookup stands. */
  lemma GetCell(t: Trie, p: Ptr, key: Key, i: nat)
    requires t.Inv() && GetAt(t, p, key, i)
    ensures p in t.st && p.kind != None && t.pre.Keys == t.st.Keys
    ensures p.kind == Leaf <==> t.st[p].LeafCell?
    ensures p.kind == Edge <==> t.st[p].EdgeCell?
    ensures p.kind.IsBranch() <==> t.st[p].BranchCell?
  {
    KindOfCell(t, p);
  }

  /** A branch entry is never a null pointer. */
  lemma GetNone(t: Trie, p: Ptr, v: Sym)
    requires t.Inv() && p in t.st && t.st[p].BranchCell?
    ensures v in t.st[p].ents ==> t.st[p].ents[v].kind != None
  {
    assert Local(t.st, t.pre, p);
    if v in t.st[p].ents {
      assert LocalEntry(t.st, t.pre, p, v, t.st[p].ents[v]);
      KindOfCell(t, t.st[p].ents[v]);
    }
  }

  /** Nothing but the root sentinel is on the path yet; the root is no leaf. */
  lemma WalkStart(t: Trie, key: Key)
    requires t.Inv() && key != []
    ensures t.pre.Keys == t.st.Keys
    ensures Walk(t, [PrevPtr(NIL, IMMEDIATE)], t.root, key, 0)
  {
    if t.root.kind != None { KindOfCell(t, t.root); }
  }

  class RadixTree {
    var root: Ptr
    var prev: seq<PrevPtr>
    const pools: Arena
    ghost var trie: Trie

    /** The root and the pools are those of `t`. */
    ghost predicate Stands(t: Trie)
      reads this`root, pools, pools.Footprint()
    {
      pools.Valid() && root == t.root && pools.st == t.st
    }

    ghost predicate Valid()
      reads this, pools, pools.Footprint()
    {
      Stands(trie) && trie.Inv() && NormalForm(trie.st)
    }

    /** The map from keys to values the tree stands for. */
    ghost function Contents(): map<Key, Value>
      reads this, pools, pools.Footprint()
      requires Valid()
    {
      trie.Content()
    }

    constructor (defaultCap: nat, keyLength: nat)
      requires 0 < defaultCap
      ensures Valid() && Contents() == map[] && pools.keySize == keyLength
      ensures fresh(pools) && fresh(pools.edges) && fresh(pools.leaves) && fresh(pools.strings)
      ensures fresh(pools.branches4) && fresh(pools.branches8) && fresh(pools.branches16) && fresh(pools.branchesFull)
    {
      hide Arena.Valid;
      root := NIL;
      prev := [];
      pools := new Arena(defaultCap, keyLength);
      trie := Trie(NIL, map[], map[], map[], map[]);
    }

    /** Make one slot of the path hold `node`; a branch without room grows instead. */
    method SetStep(p: PrevPtr, node: Ptr, ghost t: Trie) returns (grown: Ptr)
      requires Stands(t) && node.kind != None && p.node.kind != Leaf && IsSlot(t, SlotOf(p))
      modifies this`root, pools, pools.Footprint()
      ensures grown.kind == None <==> HasRoom(t, SlotOf(p))
      ensures grown.kind == None ==> Stands(Pointed(t, SlotOf(p), node))
      ensures grown.kind != None ==>
                GrownFrom(t, SlotOf(p), grown) && Stands(Widened(t, p.node, p.branchVal, node, grown))
    {
      hide Arena.Valid, Fits;
      if p.node.kind == None {
        root := node;
        grown := NIL;
      } else if p.node.kind == Edge {
        pools.SetEdgeNext(p.node, node);
        grown := NIL;
      } else {
        grown := pools.InsertIntoBranchOrGrow(p.node, p.branchVal, node);
      }
    }

    /** Make the slot at the end of the path hold `newNode`. A branch without room grows, and its
        new pointer goes to the slot before; that slot has room, so the walk back ends there. */
    method SetPrev(newNode: Ptr, ghost t: Trie, ghost path: seq<PrevPtr>) returns (ghost grown: Ptr)
      requires Stands(t) && newNode.kind != None && path == prev && CanSetPrev(t, path)
      modifies this`root, pools, pools.Footprint()
      ensures grown.kind == None <==> HasRoom(t, Here(path))
      ensures grown.kind == None ==> Stands(Pointed(t, Here(path), newNode))
      ensures grown.kind != None ==> GrownFrom(t, Here(path), grown) && |path| > 1
      ensures grown.kind != None ==>
                Stands(Moved(t, SlotOf(path[|path| - 2]), Here(path).branch, Here(path).v, newNode, grown))
    {
      hide Arena.Valid, Fits, Pointed, Moved, Widened;
      var node := newNode;
      var idx := |prev| - 1;
      grown := NIL;
      ghost var now := t;
      while true
        invariant |path| - 2 <= idx < |path| && 0 <= idx && node.kind != None && Stands(now)
        invariant IsSlot(now, SlotOf(path[idx])) && path[idx].node.kind != Leaf
        invariant idx == |path| - 1 ==> now == t && node == newNode && grown == NIL
        invariant idx == |path| - 2 ==>
                    && grown == node && GrownFrom(t, Here(path), grown) && !HasRoom(t, Here(path))
                    && HasRoom(now, SlotOf(path[idx]))
                    && Pointed(now, SlotOf(path[idx]), node)
                       == Moved(t, SlotOf(path[idx]), Here(path).branch, Here(path).v, newNode, grown)
        decreases idx
      {
        node := SetStep(prev[idx], node, now);
        if node.kind == None {
          return;
        }
        grown := node;
        WidenedSlot(t, path, newNode, grown);
        now := Widened(t, Here(path).branch, Here(path).v, newNode, grown);
        idx := idx - 1;
      }
    }

    /** What the caller of an insertion provides: a non-empty key that fits the string slots. */
    ghost predicate KeyOk(key: seq<Byte>, keyLen: nat) {
      0 < keyLen <= 2 * |key| && keyLen <= 2 * pools.keySize
    }

    /** A leaf for the value, under an edge for the nibbles of the key from `offset` on. */
    method HangKey(key: seq<Byte>, offset: nat, keyLen: nat, value: Value) returns (l: Ptr, q: Ptr)
      requires pools.Valid() && offset <= keyLen && KeyOk(key, keyLen)
      modifies pools, pools.Footprint()
      ensures pools.Valid()
      ensures FreshTail(old(pools.st), NibbleStr(key, 0, keyLen)[offset..], l, q)
      ensures pools.st == Hanging(old(pools.st), NibbleStr(key, 0, keyLen)[offset..], l, q, value)
    {
      hide Arena.Valid;
      l := pools.CreateLeaf(value);
      q := l;
      if keyLen - offset > 0 {
        q := pools.CreateEdge(key, offset, keyLen - offset, l);
        assert NibbleStr(key, offset, keyLen - offset) == NibbleStr(key, 0, keyLen)[offset..];
      }
    }

    /** Nothing is stored where the path ends: put the rest of the key there. */
    method InsertAtNone(key: seq<Byte>, keyLen: nat, keyIdx: nat, value: Value)
      requires Valid() && KeyOk(key, keyLen) && Chain(trie, prev)
      requires OnPath(trie, Here(prev), NibbleStr(key, 0, keyLen), keyIdx) && At(trie, Here(prev)).kind == None
      modifies this`root, this`trie, pools, pools.Footprint()
      ensures Valid()
      ensures Contents() == old(Contents())[NibbleStr(key, 0, keyLen) := value]
    {
      hide Arena.Valid, Trie.Inv, NormalForm, AddPre, GrowPre, Pointed, Moved, Chain, Hanging, CanSetPrev, GrownFrom, HasRoom;
      ghost var t, path, K := trie, prev, NibbleStr(key, 0, keyLen);
      var l, q := HangKey(key, keyIdx, keyLen, value);
      ghost var t1 := t.(st := pools.st);
      ChainCanSet(t, path);
      HangExtends(t, K[keyIdx..], l, q, value);
      ExtendsCanSet(t, t1, path);
      ghost var grown := SetPrev(q, t1, path);
      ExtendsRoom(t, t1, Here(path), grown);
      trie := NoneDone(t, path, K, keyIdx, l, q, value, grown);
    }

    /** What follows the nibbles an old edge gives up: its target, or a new edge. */
    method TailOf(oldKey: seq<Byte>, offset: nat, length: nat, next: Ptr) returns (q: Ptr)
      requires pools.Valid() && offset <= length <= 2 * |oldKey| && length <= 2 * pools.keySize
      modifies pools, pools.Footprint()
      ensures pools.Valid()
      ensures offset == length ==> q == next
      ensures offset < length ==> q.kind == Edge && q !in old(pools.st)
      ensures pools.st == TailStore(old(pools.st), NibbleStr(oldKey, 0, length)[offset..], q, next)
    {
      hide Arena.Valid;
      q := next;
      if length - offset > 0 {
        q := pools.CreateEdge(oldKey, offset, length - offset, next);
        assert NibbleStr(oldKey, offset, length - offset) == NibbleStr(oldKey, 0, length)[offset..];
      }
    }

    /** A new branch of 4 with two entries. */
    method Fork(v0: Sym, q0: Ptr, v1: Sym, q1: Ptr) returns (b: Ptr)
      requires pools.Valid() && v0 != v1 && q0.kind != None && q1.kind != None
      modifies pools, pools.Footprint()
      ensures pools.Valid()
      ensures b.kind == Branch4 && b !in old(pools.st)
      ensures pools.st == old(pools.st)[b := BranchCell(map[v0 := q0, v1 := q1])]
    {
      hide Arena.Valid;
      b := pools.CreateBranch4();
      pools.FillBranch4(b, 0, v0, q0);
      pools.FillBranch4(b, 1, v1, q1);
    }

    /** A new branch with what was there under `v` and the new key under `w`; an immediate comes first. */
    method ForkOldAndNew(v: Nib, oldNode: Ptr, w: Sym, q: Ptr) returns (b: Ptr)
      requires pools.Valid() && v != w && oldNode.kind != None && q.kind != None
      modifies pools, pools.Footprint()
      ensures pools.Valid()
      ensures b.kind == Branch4 && b !in old(pools.st)
      ensures pools.st == old(pools.st)[b := BranchCell(map[v as Sym := oldNode, w := q])]
    {
      hide Arena.Valid;
      if w == IMMEDIATE {
        b := Fork(w, q, v, oldNode);
        assert map[w := q, v := oldNode] == map[v as Sym := oldNode, w := q];
      } else {
        b := Fork(v, oldNode, w, q);
      }
    }

    /** Allocate what replaces edge `p`: a branch with the edge's first nibble, its tail, and the
        key leaving under `w`; then give the edge back. */
    method ReplaceEdge(p: Ptr, key: seq<Byte>, offset: nat, keyLen: nat, w: Sym, value: Value, ghost t: Trie)
      returns (e1: Ptr, l: Ptr, q: Ptr, b: Ptr)
      requires Stands(t) && IsEdgeAt(t, p) && p.kind == Edge && t.st[p].str != []
      requires t.st[p].next in t.st && t.st[p].next.kind != None && t.st[p].str[0] != w
      requires offset <= keyLen && KeyOk(key, keyLen)
      modifies pools, pools.Footprint()
      ensures FreshCells(t, t.st[p].str[1..], e1, t.st[p].next, NibbleStr(key, 0, keyLen)[offset..], l, q, b)
      ensures Stands(Replaced(t, p, e1, t.st[p].str[0], NibbleStr(key, 0, keyLen)[offset..], l, q, w, value, b))
    {
      hide Arena.Valid;
      var oldKey, length, next := pools.FetchEdge(p);
      var oldVal := Unpack(oldKey, 0);
      e1 := TailOf(oldKey, 1, length, next);
      l, q := HangKey(key, offset, keyLen, value);
      b := ForkOldAndNew(oldVal, e1, w, q);
      pools.RemoveEdge(p);
    }

    /** The key leaves the edge at its first nibble: a branch takes the edge's place. */
    method InsertAtEdgeStart(p: Ptr, key: seq<Byte>, keyLen: nat, keyIdx: nat, value: Value)
      requires Valid() && KeyOk(key, keyLen) && Chain(trie, prev) && keyIdx < keyLen
      requires OnPath(trie, Here(prev), NibbleStr(key, 0, keyLen), keyIdx) && At(trie, Here(prev)) == p
      requires IsEdgeAt(trie, p) && p.kind == Edge && trie.st[p].str != [] && trie.st[p].str[0] != Unpack(key, keyIdx)
      modifies this`root, this`trie, pools, pools.Footprint()
      ensures Valid()
      ensures Contents() == old(Contents())[NibbleStr(key, 0, keyLen) := value]
    {
      hide Arena.Valid, Trie.Inv, NormalForm, Pointed, Replaced;
      ghost var t, path, K := trie, prev, NibbleStr(key, 0, keyLen);
      ghost var s := Here(path);
      EdgeLeads(t, p);
      SlotHolds(t, s);
      NotInImmediate(t, s);
      InUseHasRoom(t, s);
      PathLabel(t, s, K, keyIdx);
      NextNibble(SlotLabel(t, s), K, keyIdx);
      var w := Unpack(key, keyIdx);
      var e1, l, q, b := ReplaceEdge(p, key, keyIdx + 1, keyLen, w, value, t);
      ReplacedSlot(t, s, e1, K[keyIdx + 1..], l, q, w, value, b);
      ghost var grown := SetPrev(b, Replaced(t, p, e1, t.st[p].str[0], K[keyIdx + 1..], l, q, w, value, b), path);
      trie := ReplacedDone(t, s, K, K[keyIdx + 1..], e1, l, q, w, value, b);
    }

    /** Allocate what edge `p` leads to once it is cut after `j` nibbles: a branch with its next
        nibble, its tail, and the key leaving under `w`; then cut the edge. */
    method ShortenEdge(p: Ptr, j: nat, key: seq<Byte>, offset: nat, keyLen: nat, w: Sym, value: Value, ghost t: Trie)
      returns (ghost e1: Ptr, ghost l: Ptr, ghost q: Ptr, ghost b: Ptr)
      requires Stands(t) && IsEdgeAt(t, p) && p.kind == Edge && 0 < j < |t.st[p].str|
      requires t.st[p].next in t.st && t.st[p].next.kind != None && t.st[p].str[j] != w
      requires offset <= keyLen && KeyOk(key, keyLen)
      modifies pools, pools.Footprint()
      ensures FreshCells(t, t.st[p].str[j + 1..], e1, t.st[p].next, NibbleStr(key, 0, keyLen)[offset..], l, q, b)
      ensures Stands(Shortened(t, p, j, e1, NibbleStr(key, 0, keyLen)[offset..], l, q, w, value, b))
    {
      hide Arena.Valid;
      var oldKey, length, next := pools.FetchEdge(p);
      var oldVal := Unpack(oldKey, j);
      var tail := TailOf(oldKey, j + 1, length, next);
      var leaf, hung := HangKey(key, offset, keyLen, value);
      var branch := ForkOldAndNew(oldVal, tail, w, hung);
      pools.TruncateEdge(p, j, branch);
      e1, l, q, b := tail, leaf, hung, branch;
    }

    /** The edge still has nibbles after the first `j`, and the key goes elsewhere or ends there:
        the edge is cut and leads to a branch. */
    method InsertInsideEdge(p: Ptr, j: nat, key: seq<Byte>, keyLen: nat, keyIdx: nat, value: Value)
      requires Valid() && KeyOk(key, keyLen) && keyIdx <= keyLen
      requires IsEdgeAt(trie, p) && p.kind == Edge && 0 < j < |trie.st[p].str|
      requires p in trie.pre && trie.pre[p] + trie.st[p].str[..j] == NibbleStr(key, 0, keyLen)[..keyIdx]
      requires keyIdx < keyLen ==> trie.st[p].str[j] != Unpack(key, keyIdx)
      modifies this`trie, pools, pools.Footprint()
      ensures Valid()
      ensures Contents() == old(Contents())[NibbleStr(key, 0, keyLen) := value]
    {
      hide Arena.Valid, Trie.Inv, NormalForm, Shortened;
      ghost var t, K := trie, NibbleStr(key, 0, keyLen);
      EdgeLeads(t, p);
      if keyIdx < keyLen {
        var w := Unpack(key, keyIdx);
        NextNibble(t.pre[p] + t.st[p].str[..j], K, keyIdx);
        ghost var e1, l, q, b := ShortenEdge(p, j, key, keyIdx + 1, keyLen, w, value, t);
        trie := ShortenedDone(t, p, j, K, K[keyIdx + 1..], e1, l, q, w, value, b);
      } else {
        assert K[..keyIdx] == K && K[keyLen..] == [];
        ghost var e1, l, q, b := ShortenEdge(p, j, key, keyLen, keyLen, IMMEDIATE, value, t);
        trie := ShortenedDone(t, p, j, K, [], e1, l, q, IMMEDIATE, value, b);
      }
    }

    /** The edge is used up, it leads to a leaf, and the key goes on: the leaf becomes the immediate
        of a new branch. */
    method InsertAfterEdge(p: Ptr, key: seq<Byte>, keyLen: nat, keyIdx: nat, value: Value)
      requires Valid() && KeyOk(key, keyLen) && keyIdx < keyLen
      requires IsEdgeAt(trie, p) && p.kind == Edge && trie.st[p].next.kind == Leaf
      requires p in trie.pre && trie.pre[p] + trie.st[p].str == NibbleStr(key, 0, keyLen)[..keyIdx]
      modifies this`trie, pools, pools.Footprint()
      ensures Valid()
      ensures Contents() == old(Contents())[NibbleStr(key, 0, keyLen) := value]
    {
      hide Arena.Valid, Trie.Inv, NormalForm;
      ghost var t, K, s := trie, NibbleStr(key, 0, keyLen), NextSlot(p);
      EdgeLeads(t, p);
      var _, _, next := pools.FetchEdge(p);
      var w := Unpack(key, keyIdx);
      NextNibble(t.pre[p] + t.st[p].str, K, keyIdx);
      var l, q := HangKey(key, keyIdx + 1, keyLen, value);
      var b := Fork(IMMEDIATE, next, w, q);
      pools.SetEdgeNext(p, b);
      trie := BesideDone(t, s, K, K[keyIdx + 1..], l, q, w, value, b);
    }

    /** Special case 1: the key ends at the entry `v` of branch `n`, which holds an edge. A branch
        takes the edge's place and the key becomes its immediate. The entry exists already, so the
        branch never has to grow. */
    method InsertBeforeEdge(n: Ptr, v: Sym, next: Ptr, key: seq<Byte>, keyLen: nat, value: Value)
      requires Valid() && KeyOk(key, keyLen) && n.kind.IsBranch()
      requires OnPath(trie, EntSlot(n, v), NibbleStr(key, 0, keyLen), keyLen) && v != IMMEDIATE
      requires At(trie, EntSlot(n, v)) == next && IsEdgeAt(trie, next) && next.kind == Edge
      modifies this`root, this`trie, pools, pools.Footprint()
      ensures Valid()
      ensures Contents() == old(Contents())[NibbleStr(key, 0, keyLen) := value]
    {
      hide Arena.Valid, Trie.Inv, NormalForm, Replaced, Pointed;
      ghost var t, K, s := trie, NibbleStr(key, 0, keyLen), EntSlot(n, v);
      EdgeLeads(t, next);
      SlotHolds(t, s);
      InUseHasRoom(t, s);
      PathLabel(t, s, K, keyLen);
      assert K[..keyLen] == K && K[keyLen..] == [];
      var e1, l, q, b := ReplaceEdge(next, key, keyLen, keyLen, IMMEDIATE, value, t);
      ReplacedSlot(t, s, e1, [], l, q, IMMEDIATE, value, b);
      var maybeNew := SetStep(PrevPtr(n, v), b, Replaced(t, next, e1, t.st[next].str[0], [], l, q, IMMEDIATE, value, b));
      assert maybeNew.kind == None;
      trie := ReplacedDone(t, s, K, [], e1, l, q, IMMEDIATE, value, b);
    }

    /** Special case 3: the entry `v` of branch `n` holds a leaf and the key goes on: the leaf
        becomes the immediate of a new branch. Again the entry exists already. */
    method InsertAfterLeaf(n: Ptr, v: Sym, next: Ptr, key: seq<Byte>, keyLen: nat, keyIdx: nat, value: Value)
      requires Valid() && KeyOk(key, keyLen) && n.kind.IsBranch() && keyIdx < keyLen
      requires OnPath(trie, EntSlot(n, v), NibbleStr(key, 0, keyLen), keyIdx) && v != IMMEDIATE
      requires At(trie, EntSlot(n, v)) == next && next.kind == Leaf
      modifies this`root, this`trie, pools, pools.Footprint()
      ensures Valid()
      ensures Contents() == old(Contents())[NibbleStr(key, 0, keyLen) := value]
    {
      hide Arena.Valid, Trie.Inv, NormalForm, Beside, Pointed;
      ghost var t, K, s := trie, NibbleStr(key, 0, keyLen), EntSlot(n, v);
      SlotHolds(t, s);
      InUseHasRoom(t, s);
      PathLabel(t, s, K, keyIdx);
      var w := Unpack(key, keyIdx);
      NextNibble(SlotLabel(t, s), K, keyIdx);
      var l, q := HangKey(key, keyIdx + 1, keyLen, value);
      var b := Fork(IMMEDIATE, next, w, q);
      BesideSlot(t, s, K[keyIdx + 1..], l, q, w, value, b);
      ghost var t1 := Beside(t, next, K[keyIdx + 1..], l, q, w, value, b);
      BesideStands(t, next, K[keyIdx + 1..], l, q, w, value, b);
      var maybeNew := SetStep(PrevPtr(n, v), b, t1);
      assert maybeNew.kind == None;
      trie := BesideDone(t, s, K, K[keyIdx + 1..], l, q, w, value, b);
    }

    /** The key is stored already: overwrite its value. */
    method InsertAtLeaf(node: Ptr, key: seq<Byte>, keyLen: nat, value: Value)
      requires Valid() && KeyOk(key, keyLen) && node.kind == Leaf && |prev| > 0
      requires OnPath(trie, Here(prev), NibbleStr(key, 0, keyLen), keyLen) && At(trie, Here(prev)) == node
      modifies this`trie, pools, pools.Footprint()
      ensures Valid()
      ensures Contents() == old(Contents())[NibbleStr(key, 0, keyLen) := value]
    {
      hide Arena.Valid, NormalForm, Trie.Inv;
      ghost var K := NibbleStr(key, 0, keyLen);
      LeafDone(trie, Here(prev), K, value);
      pools.WriteLeaf(node, value);
      trie := SetLeaf(trie, node, value);
    }

    /** Record a step. The path stays a chain from the root sentinel or the last edge, and ends in the
        slot just taken: an edge or the sentinel begins it anew, a branch must be what its end held. */
    method PushPrev(node: Ptr, branchVal: Sym, ghost t: Trie)
      requires node.kind != Leaf && IsSlot(t, SlotOf(PrevPtr(node, branchVal)))
      requires node.kind == None ==> prev == []
      requires node.kind.IsBranch() ==> Chain(t, prev) && At(t, Here(prev)) == node
      modifies this`prev
      ensures Chain(t, prev) && Here(prev) == SlotOf(PrevPtr(node, branchVal))
      ensures prev[|prev| - 1] == PrevPtr(node, branchVal)
      ensures prev[..|prev| - 1] == if node.kind.IsBranch() then old(prev) else []
    {
      if node.kind == Edge {
        prev := [];
      }
      prev := prev + [PrevPtr(node, branchVal)];
    }

    /** One step of the walk at an edge: store the key beside the edge, or cross it. */
    method StepEdge(node: Ptr, key: seq<Byte>, keyLen: nat, keyIdx: nat, value: Value)
      returns (done: bool, next: Ptr, nextIdx: nat)
      requires Valid() && KeyOk(key, keyLen) && node.kind == Edge
      requires Walk(trie, prev, node, NibbleStr(key, 0, keyLen), keyIdx)
      modifies this, pools, pools.Footprint()
      ensures Valid()
      ensures done ==> Contents() == old(Contents())[NibbleStr(key, 0, keyLen) := value]
      ensures !done ==> trie == old(trie) && Walk(trie, prev, next, NibbleStr(key, 0, keyLen), nextIdx)
      ensures !done ==> keyIdx < nextIdx <= keyLen
    {
      hide Arena.Valid, Trie.Inv, NormalForm;
      ghost var K := NibbleStr(key, 0, keyLen);
      SlotHolds(trie, Here(prev));
      KindOfCell(trie, node);
      EdgeLeads(trie, node);
      PathLabel(trie, Here(prev), K, keyIdx);
      var oldKey, length, target := pools.FetchEdge(node);
      if Unpack(oldKey, 0) != Unpack(key, keyIdx) {
        InsertAtEdgeStart(node, key, keyLen, keyIdx, value);
        done, next, nextIdx := true, NIL, 0;
        return;
      }
      var oldIdx, k := ConsumeMatching(oldKey, length, key, keyLen, keyIdx);
      assert K[..keyIdx] + K[keyIdx..k] == K[..k];
      if oldIdx < length {
        InsertInsideEdge(node, oldIdx, key, keyLen, k, value);
        done, next, nextIdx := true, NIL, 0;
        return;
      }
      if k < keyLen && target.kind == Leaf {
        InsertAfterEdge(node, key, keyLen, k, value);
        done, next, nextIdx := true, NIL, 0;
        return;
      }
      WalkEdge(trie, prev, node, K, keyIdx, k);
      ghost var path := Pushed(prev, node, IMMEDIATE);
      PushPrev(node, IMMEDIATE, trie);
      assert prev == path;
      done, next, nextIdx := false, target, k;
    }

    /** One step of the walk at a branch: store the key, or take an entry. */
    method StepBranch(node: Ptr, key: seq<Byte>, keyLen: nat, keyIdx: nat, value: Value)
      returns (done: bool, next: Ptr, nextIdx: nat)
      requires Valid() && KeyOk(key, keyLen) && node.kind.IsBranch()
      requires Walk(trie, prev, node, NibbleStr(key, 0, keyLen), keyIdx)
      modifies this, pools, pools.Footprint()
      ensures Valid()
      ensures done ==> Contents() == old(Contents())[NibbleStr(key, 0, keyLen) := value]
      ensures !done ==> trie == old(trie) && Walk(trie, prev, next, NibbleStr(key, 0, keyLen), nextIdx)
      ensures !done ==> keyIdx <= nextIdx <= keyLen && (keyIdx == nextIdx ==> !next.kind.IsBranch())
    {
      hide Arena.Valid, Trie.Inv, NormalForm;
      hide Walk, Chain, OnPath;
      ghost var K := NibbleStr(key, 0, keyLen);
      BranchThere(trie, prev, node, K, keyIdx);
      if keyLen == keyIdx {
        next := pools.GetBranch(node, IMMEDIATE);
        ImmediateIsLeaf(trie, node);
        WalkBranch(trie, prev, node, K, keyIdx, IMMEDIATE, keyIdx, next);
        ghost var path := Pushed(prev, node, IMMEDIATE);
        PushPrev(node, IMMEDIATE, trie);
        assert prev == path;
        done, nextIdx := false, keyIdx;
        return;
      }
      var branchVal := Unpack(key, keyIdx);
      next := pools.GetBranch(node, branchVal);
      done, nextIdx := false, keyIdx + 1;
      var keyHasRemainder := keyLen > nextIdx;
      if next.kind == Edge && !keyHasRemainder {
        EntryOnPath(trie, prev, node, K, keyIdx, branchVal);
        InsertBeforeEdge(node, branchVal, next, key, keyLen, value);
        done := true;
        return;
      }
      if next.kind == Leaf && keyHasRemainder {
        EntryOnPath(trie, prev, node, K, keyIdx, branchVal);
        InsertAfterLeaf(node, branchVal, next, key, keyLen, nextIdx, value);
        done := true;
        return;
      }
      WalkBranch(trie, prev, node, K, keyIdx, branchVal, nextIdx, next);
      ghost var path := Pushed(prev, node, branchVal);
      PushPrev(node, branchVal, trie);
      assert prev == path;
    }

    /** Store the value under the first `keyLen` nibbles of `key`. */
    method Insert(key: seq<Byte>, keyLen: nat, value: Value)
      requires Valid() && KeyOk(key, keyLen)
      modifies this, pools, pools.Footprint()
      ensures Valid()
      ensures Contents() == old(Contents())[NibbleStr(key, 0, keyLen) := value]
    {
      hide Arena.Valid, Trie.Inv, NormalForm, Walk;
      ghost var t, K := trie, NibbleStr(key, 0, keyLen);
      var node := root;
      prev := [];
      PushPrev(NIL, IMMEDIATE, t);
      var keyIdx := 0;
      assert prev == [PrevPtr(NIL, IMMEDIATE)];
      WalkStart(t, K);
      while node.kind == Edge || node.kind.IsBranch()
        invariant Valid() && trie == t && t.pre.Keys == t.st.Keys && Walk(t, prev, node, K, keyIdx) && keyIdx <= keyLen
        decreases keyLen - keyIdx, node.kind.IsBranch()
      {
        var done, next, nextIdx;
        if node.kind == Edge {
          done, next, nextIdx := StepEdge(node, key, keyLen, keyIdx, value);
        } else {
          done, next, nextIdx := StepBranch(node, key, keyLen, keyIdx, value);
        }
        if done {
          return;
        }
        node, keyIdx := next, nextIdx;
      }
      WalkEnds(t, prev, node, K, keyIdx);
      if node.kind == Leaf {
        InsertAtLeaf(node, key, keyLen, value);
      } else {
        InsertAtNone(key, keyLen, keyIdx, value);
      }
    }

    /** One step of a lookup at an edge: cross it, or find the key missing. `len` is how far the key is
        taken to reach, more than `keyLen` once the lookup has read on behind it. */
    method CrossEdge(node: Ptr, key: seq<Byte>, keyLen: nat, keyIdx: nat, ghost len: nat, ghost t: Trie)
      returns (matches: bool, next: Ptr, nextIdx: nat)
      requires Reading(key, keyLen, keyIdx, len) && node.kind == Edge && t.pre.Keys == t.st.Keys
      requires GetAt(t, node, NibbleStr(key, 0, len), keyIdx)
      requires t.Inv() && NormalForm(t.st) && Stands(t)
      ensures !matches ==> Settles(t.Content(), NibbleStr(key, 0, len), NotFound)
      ensures matches ==> keyIdx < nextIdx <= keyLen == len && GetAt(t, next, NibbleStr(key, 0, len), nextIdx)
    {
      hide Arena.Valid, Trie.Inv, NormalForm, Settles, GetAt;
      ghost var K := NibbleStr(key, 0, len);
      GetCell(t, node, K, keyIdx);
      var edgeKey, length, target := pools.FetchEdge(node);
      EdgeNotEmpty(t, node);
      matches, next, nextIdx := false, target, keyIdx + length;
      if length <= keyLen - keyIdx {
        matches := EdgeMatches(edgeKey, length, key, keyIdx);
        assert NibbleStr(key, keyIdx, length) == K[keyIdx..][..length];
      }
      if matches {
        EdgeGoesOn(t, node, K, keyIdx);
      } else {
        EdgeMisses(t, node, K, keyIdx);
      }
    }

    /** One step of a lookup at a branch. A branch of 16 reads the next nibble of the buffer without
        asking whether the key is used up. */
    method TakeBranch(node: Ptr, key: seq<Byte>, keyLen: nat, keyIdx: nat, ghost len: nat, ghost t: Trie)
      returns (done: bool, r: Lookup, next: Ptr, nextIdx: nat, ghost newLen: nat)
      requires Reading(key, keyLen, keyIdx, len) && node.kind.IsBranch() && t.pre.Keys == t.st.Keys
      requires GetAt(t, node, NibbleStr(key, 0, len), keyIdx)
      requires t.Inv() && NormalForm(t.st) && Stands(t)
      ensures newLen == len || (newLen == len + 1 <= 2 * |key| && Crowded(t.Content().Keys, NibbleStr(key, 0, len)))
      ensures done ==> if r == PastKey then newLen == 2 * |key| && Crowded(t.Content().Keys, NibbleStr(key, 0, newLen))
                       else Settles(t.Content(), NibbleStr(key, 0, newLen), r)
      ensures !done ==> Reading(key, keyLen, nextIdx, newLen) && GetAt(t, next, NibbleStr(key, 0, newLen), nextIdx)
      ensures !done ==> keyIdx < nextIdx || (keyIdx == nextIdx && next.kind == Leaf)
    {
      hide Arena.Valid, Trie.Inv, NormalForm, Settles, GetAt, Crowded;
      ghost var K := NibbleStr(key, 0, len);
      GetCell(t, node, K, keyIdx);
      done, r, next, nextIdx, newLen := true, PastKey, NIL, keyIdx, len;
      var val: Sym := IMMEDIATE;
      if node.kind == Branch16 {
        if keyIdx == len {
          BranchReadsPast(t, node, K);
        }
        if keyIdx >= 2 * |key| {
          return;
        }
        if keyIdx == len {
          newLen := len + 1;
          assert NibbleStr(key, 0, newLen)[..len] == K;
          GetLonger(t, node, NibbleStr(key, 0, newLen), len);
        }
        val := Unpack(key, keyIdx);
      } else if keyLen > keyIdx {
        val := Unpack(key, keyIdx);
      }
      ghost var L := NibbleStr(key, 0, newLen);
      next := pools.GetBranch(node, val);
      if next.kind == None {
        r := NotFound;
        GetNone(t, node, val);
        BranchMisses(t, node, L, keyIdx);
        return;
      }
      BranchTakes(t, node, L, keyIdx);
      done, nextIdx := false, if val == IMMEDIATE then keyIdx else keyIdx + 1;
    }

    /** Look up the first `keyLen` nibbles of `key`. */
    method Get(key: seq<Byte>, keyLen: nat) returns (r: Lookup)
      requires Valid() && keyLen <= 2 * |key|
      ensures Valid()
      ensures Answers(Contents(), NibbleStr(key, 0, 2 * |key|), keyLen, r)
    {
      hide Arena.Valid, Trie.Inv, NormalForm, Settles, Answers, GetAt, Crowded;
      var node := root;
      var keyIdx := 0;
      ghost var len: nat := keyLen;
      if node.kind == None {
        EmptyAnswers(trie, NibbleStr(key, 0, len));
        Concludes(trie.Content(), key, keyLen, len, NotFound);
        return NotFound;
      }
      GetStart(trie, NibbleStr(key, 0, len));
      while node.kind != Leaf
        invariant Reading(key, keyLen, keyIdx, len) && trie.pre.Keys == trie.st.Keys
        invariant GetAt(trie, node, NibbleStr(key, 0, len), keyIdx)
        invariant forall j :: keyLen <= j < len ==> Crowded(trie.Content().Keys, NibbleStr(key, 0, j))
        decreases 2 * |key| - keyIdx, node.kind.IsBranch()
      {
        GetCell(trie, node, NibbleStr(key, 0, len), keyIdx);
        if node.kind == Edge {
          var matches, next, nextIdx := CrossEdge(node, key, keyLen, keyIdx, len, trie);
          if !matches {
            Concludes(trie.Content(), key, keyLen, len, NotFound);
            return NotFound;
          }
          node, keyIdx := next, nextIdx;
        } else {
          var done, out, next, nextIdx;
          done, out, next, nextIdx, len := TakeBranch(node, key, keyLen, keyIdx, len, trie);
          if done {
            Concludes(trie.Content(), key, keyLen, len, out);
            return out;
          }
          node, keyIdx := next, nextIdx;
        }
      }
      GetCell(trie, node, NibbleStr(key, 0, len), keyIdx);
      LeafAnswers(trie, node, NibbleStr(key, 0, len), keyIdx);
      var value := pools.FetchLeaf(node);
      r := Found(value);
      Concludes(trie.Content(), key, keyLen, len, r);
    }
  }

  /** How far a lookup has read: within the key, or to the end of what it has taken from behind it. */
  ghost predicate Reading(key: seq<Byte>, keyLen: nat, keyIdx: nat, len: nat) {
    keyIdx <= len <= 2 * |key| && keyLen <= len && (keyLen < len ==> keyIdx == len)
  }

  lemma EdgeNotEmpty(t: Trie, p: Ptr)
    requires t.Inv() && p in t.st && t.st[p].EdgeCell?
    ensures t.st[p].str != []
  {
    assert Local(t.st, t.pre, p);
  }

  /** The outcome for the key read on to length `len` is the outcome of the lookup. */
  lemma Concludes(c: map<Key, Value>, key: seq<Byte>, keyLen: nat, len: nat, r: Lookup)
    requires keyLen <= len <= 2 * |key|
    requires forall j :: keyLen <= j < len ==> Crowded(c.Keys, NibbleStr(key, 0, j))
    requires if r == PastKey then len == 2 * |key| && Crowded(c.Keys, NibbleStr(key, 0, len))
             else Settles(c, NibbleStr(key, 0, len), r)
    ensures Answers(c, NibbleStr(key, 0, 2 * |key|), keyLen, r)
  {
    hide Settles, Crowded;
    var buf := NibbleStr(key, 0, 2 * |key|);
    forall j | keyLen <= j <= len ensures buf[..j] == NibbleStr(key, 0, j) {}
    if r != PastKey {
      SettlesAnswers(c, buf, len, r);
    }
    AnswersBack(c, buf, keyLen, len, r);
  }

  /** Consume the nibbles on which the edge and the key agree; the first is known to match. */
  method ConsumeMatching(oldKey: seq<Byte>, length: nat, key: seq<Byte>, keyLen: nat, keyIdx: nat)
    returns (oldIdx: nat, k: nat)
    requires 0 < length <= 2 * |oldKey| && keyIdx < keyLen <= 2 * |key|
    requires Unpack(oldKey, 0) == Unpack(key, keyIdx)
    ensures 0 < oldIdx <= length && k == keyIdx + oldIdx <= keyLen
    ensures NibbleStr(oldKey, 0, length)[..oldIdx] == NibbleStr(key, 0, keyLen)[keyIdx..k]
    ensures oldIdx < length && k < keyLen ==> Unpack(oldKey, oldIdx) != Unpack(key, k)
    ensures oldIdx == length || k == keyLen || Unpack(oldKey, oldIdx) != Unpack(key, k)
  {
    oldIdx, k := 1, keyIdx + 1;
    while oldIdx < length && k < keyLen && Unpack(oldKey, oldIdx) == Unpack(key, k)
      invariant 0 < oldIdx <= length && k == keyIdx + oldIdx <= keyLen
      invariant forall j :: 0 <= j < oldIdx ==> Unpack(oldKey, j) == Unpack(key, keyIdx + j)
    {
      oldIdx, k := oldIdx + 1, k + 1;
    }
  }
}
