/** What one insertion does to the shape of the tree: every path through the insertion ends in
    one of the transformations below, and each of them leaves a tree in normal form that stands
    for the old map with the new key. */
module TrieInsert {
  import opened Trie

  /** How many entries a branch of each kind holds, and where immediates may be. */
  ghost predicate CountOk(k: Kind, ents: map<Sym, Ptr>) {
    match k
    case Branch4 => 2 <= |ents| <= 4
    case Branch8 => 5 <= |ents| <= 8
    case Branch16 => 9 <= |ents| && IMMEDIATE !in ents
    case BranchFull => 9 <= |ents| && IMMEDIATE in ents
    case _ => false
  }

  ghost predicate NodeOk(p: Ptr, c: Cell) {
    match c
    case LeafCell(_) => true
    case EdgeCell(s, n) => n.kind != Edge
    case BranchCell(ents) => CountOk(p.kind, ents)
  }

  ghost predicate NormalForm(st: Store) {
    forall p {:trigger NodeOk(p, st[p])} :: p in st ==> NodeOk(p, st[p])
  }

  /** Pointing a slot at a branch keeps the owner in normal form when the slot was in use. */
  lemma PointNodeOk(t: Trie, s: Slot, b: Ptr, x: Ptr)
    requires IsSlot(t, s) && At(t, s).kind != None && b.kind.IsBranch() && x in t.st && NodeOk(x, t.st[x])
    ensures NodeOk(x, PointStore(t, s, b)[x])
  {
    if s.EntSlot? && x == s.branch {
      assert t.st[x].ents[s.v := b].Keys == t.st[x].ents.Keys;
      assert |t.st[x].ents[s.v := b].Keys| == |t.st[x].ents[s.v := b]|;
      assert |t.st[x].ents.Keys| == |t.st[x].ents|;
    }
  }

  /** The pointer an addition hangs below the branch. */
  ghost function Hung(t: Trie, b: Ptr, w: Sym, key: Key, l: Ptr, e: Ptr): Ptr
    requires b in t.pre && LeavesAt(t, b, w, key)
  {
    if Rest(t, b, w, key) == [] then l else e
  }

  /** Give a one-entry branch `b` its second entry. */
  lemma SecondEntry(t: Trie, b: Ptr, v: Sym, w: Sym, key: Key, l: Ptr, e: Ptr, val: Value)
    requires AddPre(t, b, w, key, l, e) && b.kind == Branch4
    requires t.st[b].ents.Keys == {v} && v != w
    requires forall p :: p in t.st && p != b ==> NodeOk(p, t.st[p])
    ensures NormalForm(AddLeaf(t, b, w, key, l, e, val).st)
  {
    var u := AddLeaf(t, b, w, key, l, e, val);
    KindOfCell(t, b);
    assert u.st[b].ents.Keys == {v, w};
    assert |u.st[b].ents.Keys| == |u.st[b].ents|;
  }

  /** The tree after edge `At(t, s)` is replaced by a branch and the key leaves at its first nibble. */
  ghost function SplitFirst(t: Trie, s: Slot, b: Ptr, e1: Ptr, w: Sym, key: Key, l: Ptr, e2: Ptr, val: Value): Trie
    requires SplitFirstPre(t, s, b, e1, w, key, l, e2)
  {
    SplitFirstAdd(t, s, b, e1, w, key, l, e2);
    AddLeaf(Unroll(t, s, b, e1), b, w, key, l, e2, val)
  }

  ghost predicate SplitFirstPre(t: Trie, s: Slot, b: Ptr, e1: Ptr, w: Sym, key: Key, l: Ptr, e2: Ptr) {
    && UnrollPre(t, s, b, e1) && b.kind == Branch4 && NormalForm(t.st) && key != []
    && w != t.st[At(t, s)].str[0]
    && (if w == IMMEDIATE then SlotLabel(t, s) == key else SlotLabel(t, s) + [w] <= key)
    && Fresh(t, l) && l.kind == Leaf
    && (w != IMMEDIATE && |SlotLabel(t, s)| + 1 < |key| ==> Fresh(t, e2) && e2.kind == Edge && e2 != e1)
  }

  lemma SplitFirstAdd(t: Trie, s: Slot, b: Ptr, e1: Ptr, w: Sym, key: Key, l: Ptr, e2: Ptr)
    requires SplitFirstPre(t, s, b, e1, w, key, l, e2)
    ensures AddPre(Unroll(t, s, b, e1), b, w, key, l, e2)
    ensures Unroll(t, s, b, e1).pre[b] == SlotLabel(t, s)
  {
    UnrollInv(t, s, b, e1);
    SlotHolds(t, s);
  }

  lemma SplitFirstForm(t: Trie, s: Slot, b: Ptr, e1: Ptr, w: Sym, key: Key, l: Ptr, e2: Ptr, val: Value)
    requires SplitFirstPre(t, s, b, e1, w, key, l, e2)
    ensures NormalForm(SplitFirst(t, s, b, e1, w, key, l, e2, val).st)
  {
    hide Covers, Local;
    SplitFirstAdd(t, s, b, e1, w, key, l, e2);
    var t1 := Unroll(t, s, b, e1);
    forall p | p in t1.st && p != b ensures NodeOk(p, t1.st[p]) {
      if p in t.st {
        assert NodeOk(p, t.st[p]);
        PointNodeOk(t, s, b, p);
      } else {
        assert NodeOk(At(t, s), t.st[At(t, s)]);
      }
    }
    SecondEntry(t1, b, t.st[At(t, s)].str[0], w, key, l, e2, val);
  }

  lemma SplitFirstOk(t: Trie, s: Slot, b: Ptr, e1: Ptr, w: Sym, key: Key, l: Ptr, e2: Ptr, val: Value)
    requires SplitFirstPre(t, s, b, e1, w, key, l, e2)
    ensures var u := SplitFirst(t, s, b, e1, w, key, l, e2, val);
            u.Inv() && NormalForm(u.st) && u.Content() == t.Content()[key := val]
  {
    hide Covers, Local;
    SplitFirstAdd(t, s, b, e1, w, key, l, e2);
    UnrollInv(t, s, b, e1);
    UnrollContent(t, s, b, e1);
    AddLeafInv(Unroll(t, s, b, e1), b, w, key, l, e2, val);
    SplitFirstForm(t, s, b, e1, w, key, l, e2, val);
  }

  /** The tree after edge `p` is cut after `j` nibbles and the key leaves there. */
  ghost predicate SplitMidPre(t: Trie, p: Ptr, j: nat, b: Ptr, e1: Ptr, w: Sym, key: Key, l: Ptr, e2: Ptr) {
    && CutPre(t, p, j, b, e1) && b.kind == Branch4 && NormalForm(t.st) && key != []
    && w != t.st[p].str[j]
    && (if w == IMMEDIATE then t.pre[p] + t.st[p].str[..j] == key else t.pre[p] + t.st[p].str[..j] + [w] <= key)
    && Fresh(t, l) && l.kind == Leaf
    && (w != IMMEDIATE && |t.pre[p]| + j + 1 < |key| ==> Fresh(t, e2) && e2.kind == Edge && e2 != e1)
  }

  lemma SplitMidAdd(t: Trie, p: Ptr, j: nat, b: Ptr, e1: Ptr, w: Sym, key: Key, l: Ptr, e2: Ptr)
    requires SplitMidPre(t, p, j, b, e1, w, key, l, e2)
    ensures AddPre(CutEdge(t, p, j, b, e1), b, w, key, l, e2)
    ensures CutEdge(t, p, j, b, e1).pre[b] == t.pre[p] + t.st[p].str[..j]
  {
    CutEdgeInv(t, p, j, b, e1);
  }

  ghost function SplitMid(t: Trie, p: Ptr, j: nat, b: Ptr, e1: Ptr, w: Sym, key: Key, l: Ptr, e2: Ptr, val: Value): Trie
    requires SplitMidPre(t, p, j, b, e1, w, key, l, e2)
  {
    SplitMidAdd(t, p, j, b, e1, w, key, l, e2);
    AddLeaf(CutEdge(t, p, j, b, e1), b, w, key, l, e2, val)
  }

  lemma SplitMidForm(t: Trie, p: Ptr, j: nat, b: Ptr, e1: Ptr, w: Sym, key: Key, l: Ptr, e2: Ptr, val: Value)
    requires SplitMidPre(t, p, j, b, e1, w, key, l, e2)
    ensures NormalForm(SplitMid(t, p, j, b, e1, w, key, l, e2, val).st)
  {
    hide Covers, Local;
    SplitMidAdd(t, p, j, b, e1, w, key, l, e2);
    var t1 := CutEdge(t, p, j, b, e1);
    assert NodeOk(p, t.st[p]);
    forall q | q in t1.st && q != b ensures NodeOk(q, t1.st[q]) {
      if q in t.st { assert NodeOk(q, t.st[q]); }
    }
    SecondEntry(t1, b, t.st[p].str[j], w, key, l, e2, val);
  }

  lemma SplitMidOk(t: Trie, p: Ptr, j: nat, b: Ptr, e1: Ptr, w: Sym, key: Key, l: Ptr, e2: Ptr, val: Value)
    requires SplitMidPre(t, p, j, b, e1, w, key, l, e2)
    ensures var u := SplitMid(t, p, j, b, e1, w, key, l, e2, val);
            u.Inv() && NormalForm(u.st) && u.Content() == t.Content()[key := val]
  {
    hide Covers, Local;
    SplitMidAdd(t, p, j, b, e1, w, key, l, e2);
    CutEdgeInv(t, p, j, b, e1);
    CutEdgeContent(t, p, j, b, e1);
    AddLeafInv(CutEdge(t, p, j, b, e1), b, w, key, l, e2, val);
    SplitMidForm(t, p, j, b, e1, w, key, l, e2, val);
  }

  /** The tree after the leaf in slot `s` becomes an immediate and the key goes on beside it. */
  ghost predicate ExtendPre(t: Trie, s: Slot, b: Ptr, w: Sym, key: Key, l: Ptr, e: Ptr) {
    && WrapPre(t, s, b) && b.kind == Branch4 && NormalForm(t.st) && key != []
    && w != IMMEDIATE && SlotLabel(t, s) + [w] <= key
    && Fresh(t, l) && l.kind == Leaf
    && (|SlotLabel(t, s)| + 1 < |key| ==> Fresh(t, e) && e.kind == Edge)
  }

  lemma ExtendAdd(t: Trie, s: Slot, b: Ptr, w: Sym, key: Key, l: Ptr, e: Ptr)
    requires ExtendPre(t, s, b, w, key, l, e)
    ensures At(t, s) in t.st
    ensures AddPre(Wrap(t, s, b), b, w, key, l, e)
    ensures Wrap(t, s, b).pre[b] == SlotLabel(t, s)
  {
    WrapInv(t, s, b);
    SlotHolds(t, s);
  }

  ghost function Extend(t: Trie, s: Slot, b: Ptr, w: Sym, key: Key, l: Ptr, e: Ptr, val: Value): Trie
    requires ExtendPre(t, s, b, w, key, l, e)
  {
    ExtendAdd(t, s, b, w, key, l, e);
    AddLeaf(Wrap(t, s, b), b, w, key, l, e, val)
  }

  lemma ExtendForm(t: Trie, s: Slot, b: Ptr, w: Sym, key: Key, l: Ptr, e: Ptr, val: Value)
    requires ExtendPre(t, s, b, w, key, l, e)
    ensures NormalForm(Extend(t, s, b, w, key, l, e, val).st)
  {
    hide Covers, Local;
    ExtendAdd(t, s, b, w, key, l, e);
    var t1 := Wrap(t, s, b);
    forall p | p in t1.st && p != b ensures NodeOk(p, t1.st[p]) {
      assert NodeOk(p, t.st[p]);
      PointNodeOk(t, s, b, p);
    }
    SecondEntry(t1, b, IMMEDIATE, w, key, l, e, val);
  }

  lemma ExtendOk(t: Trie, s: Slot, b: Ptr, w: Sym, key: Key, l: Ptr, e: Ptr, val: Value)
    requires ExtendPre(t, s, b, w, key, l, e)
    ensures var u := Extend(t, s, b, w, key, l, e, val);
            u.Inv() && NormalForm(u.st) && u.Content() == t.Content()[key := val]
  {
    hide Covers, Local;
    ExtendAdd(t, s, b, w, key, l, e);
    WrapInv(t, s, b);
    WrapContent(t, s, b);
    AddLeafInv(Wrap(t, s, b), b, w, key, l, e, val);
    ExtendForm(t, s, b, w, key, l, e, val);
  }

  /** An entry for `v` fits into a branch of kind `k` without growth. */
  ghost predicate Fits(k: Kind, ents: map<Sym, Ptr>, v: Sym) {
    match k
    case Branch4 => v in ents || |ents| < 4
    case Branch8 => v in ents || |ents| < 8
    case Branch16 => v != IMMEDIATE
    case _ => true
  }

  /** The kind a branch grows to when an entry for `v` does not fit. */
  ghost function GrownKind(k: Kind, ents: map<Sym, Ptr>, v: Sym): Kind {
    if k == Branch4 then Branch8
    else if k == Branch8 && v != IMMEDIATE && IMMEDIATE !in ents then Branch16
    else BranchFull
  }

  /** One more entry takes a branch to the next count its kind, or its grown kind, allows. */
  lemma CountAfter(k: Kind, ents: map<Sym, Ptr>, v: Sym, q: Ptr)
    requires CountOk(k, ents) && v !in ents
    ensures CountOk(if Fits(k, ents, v) then k else GrownKind(k, ents, v), ents[v := q])
  {
    assert |ents[v := q]| == |ents| + 1;
  }

  /** The tree after the key is added to branch `b`, which has room for it. */
  lemma AddHereOk(t: Trie, b: Ptr, w: Sym, key: Key, l: Ptr, e: Ptr, val: Value)
    requires AddPre(t, b, w, key, l, e) && NormalForm(t.st) && Fits(b.kind, t.st[b].ents, w)
    ensures var u := AddLeaf(t, b, w, key, l, e, val);
            u.Inv() && NormalForm(u.st) && u.Content() == t.Content()[key := val]
  {
    hide Covers, Local;
    AddLeafInv(t, b, w, key, l, e, val);
    assert NodeOk(b, t.st[b]);
    CountAfter(b.kind, t.st[b].ents, w, Hung(t, b, w, key, l, e));
    AddHereForm(t, b, w, key, l, e, val);
  }

  lemma AddHereForm(t: Trie, b: Ptr, w: Sym, key: Key, l: Ptr, e: Ptr, val: Value)
    requires AddPre(t, b, w, key, l, e)
    requires forall p :: p in t.st && p != b ==> NodeOk(p, t.st[p])
    requires CountOk(b.kind, t.st[b].ents[w := Hung(t, b, w, key, l, e)])
    ensures NormalForm(AddLeaf(t, b, w, key, l, e, val).st)
  {
    hide Covers, Local;
    var u := AddLeaf(t, b, w, key, l, e, val);
    KindOfCell(t, b);
    forall p | p in u.st ensures NodeOk(p, u.st[p]) {
      if p in t.st && p != b { assert NodeOk(p, t.st[p]); }
    }
  }

  /** The tree after the full branch in slot `s` moves to `g` and takes the key there. */
  ghost predicate GrowPre(t: Trie, s: Slot, g: Ptr, w: Sym, key: Key, l: Ptr, e: Ptr) {
    && RenamePre(t, s, g) && NormalForm(t.st) && At(t, s) in t.st && t.st[At(t, s)].BranchCell?
    && AddPre(t, At(t, s), w, key, l, e)
    && !Fits(At(t, s).kind, t.st[At(t, s)].ents, w) && g.kind == GrownKind(At(t, s).kind, t.st[At(t, s)].ents, w)
  }

  lemma GrowAdd(t: Trie, s: Slot, g: Ptr, w: Sym, key: Key, l: Ptr, e: Ptr)
    requires GrowPre(t, s, g, w, key, l, e)
    ensures AddPre(Rename(t, s, g), g, w, key, l, e)
    ensures Rename(t, s, g).pre[g] == t.pre[At(t, s)]
  {
    RenameInv(t, s, g);
  }

  ghost function Grow(t: Trie, s: Slot, g: Ptr, w: Sym, key: Key, l: Ptr, e: Ptr, val: Value): Trie
    requires GrowPre(t, s, g, w, key, l, e)
  {
    GrowAdd(t, s, g, w, key, l, e);
    AddLeaf(Rename(t, s, g), g, w, key, l, e, val)
  }

  lemma GrowForm(t: Trie, s: Slot, g: Ptr, w: Sym, key: Key, l: Ptr, e: Ptr, val: Value)
    requires GrowPre(t, s, g, w, key, l, e)
    ensures NormalForm(Grow(t, s, g, w, key, l, e, val).st)
  {
    hide Covers, Local;
    GrowAdd(t, s, g, w, key, l, e);
    var b := At(t, s);
    var t1 := Rename(t, s, g);
    assert NodeOk(b, t.st[b]);
    CountAfter(b.kind, t.st[b].ents, w, Hung(t1, g, w, key, l, e));
    forall p | p in t1.st && p != g ensures NodeOk(p, t1.st[p]) {
      assert NodeOk(p, t.st[p]);
      PointNodeOk(t, s, g, p);
    }
    AddHereForm(t1, g, w, key, l, e, val);
  }

  lemma GrowOk(t: Trie, s: Slot, g: Ptr, w: Sym, key: Key, l: Ptr, e: Ptr, val: Value)
    requires GrowPre(t, s, g, w, key, l, e)
    ensures var u := Grow(t, s, g, w, key, l, e, val);
            u.Inv() && NormalForm(u.st) && u.Content() == t.Content()[key := val]
  {
    hide Covers, Local;
    GrowAdd(t, s, g, w, key, l, e);
    RenameInv(t, s, g);
    RenameContent(t, s, g);
    AddLeafInv(Rename(t, s, g), g, w, key, l, e, val);
    GrowForm(t, s, g, w, key, l, e, val);
  }

  lemma PlantOk(key: Key, l: Ptr, e: Ptr, val: Value)
    requires key != [] && l.kind == Leaf && e.kind == Edge
    ensures var u := Plant(key, l, e, val);
            u.Inv() && NormalForm(u.st) && u.Content() == map[key := val]
  {
    PlantInv(key, l, e, val);
  }

  lemma SetLeafOk(t: Trie, key: Key, val: Value)
    requires t.Inv() && NormalForm(t.st) && key in t.home
    ensures var u := SetLeaf(t, t.home[key], val);
            u.Inv() && NormalForm(u.st) && u.Content() == t.Content()[key := val]
  {
    hide Covers, Local;
    var l := t.home[key];
    var u := SetLeaf(t, l, val);
    SetLeafInv(t, key, val);
    forall p | p in u.st ensures NodeOk(p, u.st[p]) {
      if p != l { assert NodeOk(p, t.st[p]); }
    }
  }

  // ------------------------------------------------------------------
  // Walking down
  // ------------------------------------------------------------------

  /** Slot `s` is where key `key` leads after `i` nibbles, or as an immediate. */
  ghost predicate OnPath(t: Trie, s: Slot, key: Key, i: nat)
    requires t.pre.Keys == t.st.Keys
  {
    && IsSlot(t, s) && i <= |key|
    && (SlotLabel(t, s) == key[..i] || (i == |key| && SlotLabel(t, s) == key + [IMMEDIATE]))
  }

  /** Only an immediate slot is reached by the key and IMMEDIATE. */
  lemma PathLabel(t: Trie, s: Slot, key: Key, i: nat)
    requires t.Inv() && OnPath(t, s, key, i)
    ensures t.pre.Keys == t.st.Keys
    ensures SlotLabel(t, s) == if s.EntSlot? && s.v == IMMEDIATE then key + [IMMEDIATE] else key[..i]
    ensures s.EntSlot? && s.v == IMMEDIATE ==> i == |key|
  {
    if s.EntSlot? && s.v == IMMEDIATE {
      assert SlotLabel(t, s)[|SlotLabel(t, s)| - 1] == IMMEDIATE;
    } else {
      PlainLabel(t, s);
      assert (key + [IMMEDIATE])[|key|] == IMMEDIATE;
    }
  }

  /** A leaf reached by the whole key is the key's leaf. */
  lemma LeafOnPath(t: Trie, s: Slot, key: Key)
    requires t.Inv() && OnPath(t, s, key, |key|) && At(t, s).kind == Leaf
    ensures key in t.home && t.home[key] == At(t, s)
  {
    SlotHolds(t, s);
    var q := At(t, s);
    KindOfCell(t, q);
    var k := t.leafKey[q];
    assert key[..|key|] == key;
    assert (k + [IMMEDIATE])[|k|] == IMMEDIATE && (key + [IMMEDIATE])[|key|] == IMMEDIATE;
    if |k| == |key| {
      assert k == (k + [IMMEDIATE])[..|k|] && key == (key + [IMMEDIATE])[..|k|];
    }
  }
}
