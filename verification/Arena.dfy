/** The node pools of a radix tree and the primitive operations on them.

    The ghost field `st` is the store the pools stand for: it holds one cell for every live slot.
    Each operation says what it does to `st`, and `Valid` ties `st` to the pools. */
module Arenas {
  import opened MachineInts
  import opened Trie
  import opened TrieInsert
  import opened Nibbles
  import opened FreeLists

  /** Bytes of key text that fit in an edge, and the nibbles they hold. */
  const EDGE_DATA_SIZE: nat := 6
  const SMALL_STR_SIZE: nat := 2 * EDGE_DATA_SIZE

  /** An edge keeps short text inline and long text in the string pool. */
  datatype EdgeData = Inline(bytes: seq<Byte>) | Pooled(stringIdx: nat)

  datatype EdgeNode = EdgeNode(data: EdgeData, length: nat, next: Ptr)

  /** Branches of 4 and 8 list their symbols beside their entries. */
  datatype ListedBranch = ListedBranch(values: seq<Sym>, entries: seq<Ptr>)

  /** Branches of 16 and the full branch are indexed by symbol. */
  datatype IndexedBranch = IndexedBranch(entries: seq<Ptr>)

  function EmptyListed(n: nat): ListedBranch {
    ListedBranch(seq(n, i => 0), seq(n, i => NIL))
  }

  function EmptyIndexed(n: nat): IndexedBranch {
    IndexedBranch(seq(n, i => NIL))
  }

  /** The occupied entries form a prefix, under distinct symbols, and are exactly `ents`. */
  ghost predicate Lists(b: ListedBranch, n: nat, ents: map<Sym, Ptr>) {
    && |b.values| == |b.entries| == n && |ents| <= n
    && (forall i :: 0 <= i < |ents| ==>
          b.entries[i].kind != None && b.values[i] in ents && ents[b.values[i]] == b.entries[i])
    && (forall i :: |ents| <= i < n ==> b.entries[i].kind == None)
    && (forall i, j :: 0 <= i < j < |ents| ==> b.values[i] != b.values[j])
    && (forall v :: v in ents ==> Listed(b.values, |ents|, v))
  }

  ghost predicate Listed(values: seq<Sym>, n: nat, v: Sym)
    requires n <= |values|
  {
    exists i :: 0 <= i < n && values[i] == v
  }

  ghost predicate Indexes(b: IndexedBranch, n: nat, ents: map<Sym, Ptr>) {
    && |b.entries| == n
    && (forall v :: v in ents ==> v < n && b.entries[v] == ents[v])
    && (forall v: Sym :: v < n ==> (v in ents <==> b.entries[v].kind != None))
  }

  /** What the live slots of every pool hold. */
  datatype Pools = Pools(
    edges: map<nat, EdgeNode>,
    leaves: map<nat, Value>,
    strings: map<nat, seq<Byte>>,
    branches4: map<nat, ListedBranch>,
    branches8: map<nat, ListedBranch>,
    branches16: map<nat, IndexedBranch>,
    branchesFull: map<nat, IndexedBranch>)

  /** The store a set of pools stands for, with the edge that owns each live string slot. */
  datatype View = View(st: Store, owner: map<nat, nat>, keySize: nat)

  ghost predicate LeavesOk(pool: map<nat, Value>, st: Store) {
    && (forall i :: i in pool <==> Ptr(Leaf, i) in st)
    && (forall i :: i in pool ==> st[Ptr(Leaf, i)] == LeafCell(pool[i]))
  }

  /** Short text sits in the edge; long text in a string slot the edge alone owns. */
  ghost predicate EdgeText(i: nat, n: EdgeNode, strings: map<nat, seq<Byte>>, v: View) {
    n.length <= 2 * v.keySize &&
    if n.length <= SMALL_STR_SIZE then
      n.data.Inline? && |n.data.bytes| == EDGE_DATA_SIZE
    else
      && n.data.Pooled? && n.data.stringIdx in strings && n.data.stringIdx in v.owner
      && v.owner[n.data.stringIdx] == i
      && |strings[n.data.stringIdx]| == v.keySize
  }

  ghost function TextBytes(i: nat, n: EdgeNode, strings: map<nat, seq<Byte>>, v: View): (r: seq<Byte>)
    requires EdgeText(i, n, strings, v)
    ensures n.length <= 2 * |r|
  {
    if n.length <= SMALL_STR_SIZE then n.data.bytes else strings[n.data.stringIdx]
  }

  ghost predicate EdgeOk(i: nat, n: EdgeNode, strings: map<nat, seq<Byte>>, v: View, c: Cell) {
    EdgeText(i, n, strings, v) && c == EdgeCell(NibbleStr(TextBytes(i, n, strings, v), 0, n.length), n.next)
  }

  ghost predicate EdgesOk(pool: map<nat, EdgeNode>, strings: map<nat, seq<Byte>>, v: View) {
    && (forall i :: i in pool <==> Ptr(Edge, i) in v.st)
    && (forall i :: i in pool ==> EdgeOk(i, pool[i], strings, v, v.st[Ptr(Edge, i)]))
  }

  /** No string slot is live without an edge that owns it. */
  ghost predicate StringsOk(pool: map<nat, EdgeNode>, strings: map<nat, seq<Byte>>, v: View) {
    && v.owner.Keys == strings.Keys
    && (forall s :: s in v.owner ==>
          v.owner[s] in pool && pool[v.owner[s]].length > SMALL_STR_SIZE && pool[v.owner[s]].data == Pooled(s))
  }

  ghost predicate ListedOk(pool: map<nat, ListedBranch>, st: Store, k: Kind, n: nat) {
    && (forall i :: i in pool <==> Ptr(k, i) in st)
    && (forall i :: i in pool ==>
          st[Ptr(k, i)].BranchCell? && Lists(pool[i], n, st[Ptr(k, i)].ents))
  }

  ghost predicate IndexedOk(pool: map<nat, IndexedBranch>, st: Store, k: Kind, n: nat) {
    && (forall i :: i in pool <==> Ptr(k, i) in st)
    && (forall i :: i in pool ==>
          st[Ptr(k, i)].BranchCell? && Indexes(pool[i], n, st[Ptr(k, i)].ents))
  }

  /** The pools stand for the store. */
  ghost predicate Ties(P: Pools, v: View) {
    && (forall p :: p in v.st ==> p.kind != None)
    && LeavesOk(P.leaves, v.st)
    && EdgesOk(P.edges, P.strings, v) && StringsOk(P.edges, P.strings, v)
    && ListedOk(P.branches4, v.st, Branch4, 4) && ListedOk(P.branches8, v.st, Branch8, 8)
    && IndexedOk(P.branches16, v.st, Branch16, 16) && IndexedOk(P.branchesFull, v.st, BranchFull, 17)
  }

  // ------------------------------------------------------------------
  // Changing the cells of one kind
  // ------------------------------------------------------------------

  ghost predicate SameOn(st: Store, u: Store, k: Kind) {
    forall i :: (Ptr(k, i) in st <==> Ptr(k, i) in u) && (Ptr(k, i) in st ==> st[Ptr(k, i)] == u[Ptr(k, i)])
  }

  ghost predicate SameBut(st: Store, u: Store, k: Kind) {
    (Leaf != k ==> SameOn(st, u, Leaf)) && (Edge != k ==> SameOn(st, u, Edge))
    && (Branch4 != k ==> SameOn(st, u, Branch4)) && (Branch8 != k ==> SameOn(st, u, Branch8))
    && (Branch16 != k ==> SameOn(st, u, Branch16)) && (BranchFull != k ==> SameOn(st, u, BranchFull))
  }

  lemma KeepLeaves(pool: map<nat, Value>, st: Store, u: Store)
    requires LeavesOk(pool, st) && SameOn(st, u, Leaf)
    ensures LeavesOk(pool, u)
  {
  }

  lemma KeepEdges(pool: map<nat, EdgeNode>, strings: map<nat, seq<Byte>>, v: View, u: Store)
    requires EdgesOk(pool, strings, v) && StringsOk(pool, strings, v) && SameOn(v.st, u, Edge)
    ensures EdgesOk(pool, strings, v.(st := u)) && StringsOk(pool, strings, v.(st := u))
  {
    forall i | i in pool ensures EdgeOk(i, pool[i], strings, v.(st := u), u[Ptr(Edge, i)]) {
      assert EdgeOk(i, pool[i], strings, v, v.st[Ptr(Edge, i)]);
    }
  }

  lemma KeepListed(pool: map<nat, ListedBranch>, st: Store, u: Store, k: Kind, n: nat)
    requires ListedOk(pool, st, k, n) && SameOn(st, u, k)
    ensures ListedOk(pool, u, k, n)
  {
    hide Lists;
  }

  lemma KeepIndexed(pool: map<nat, IndexedBranch>, st: Store, u: Store, k: Kind, n: nat)
    requires IndexedOk(pool, st, k, n) && SameOn(st, u, k)
    ensures IndexedOk(pool, u, k, n)
  {
    hide Indexes;
  }

  /** What remains to be shown after changing the cells of kind `k`. */
  ghost predicate TiesOn(P: Pools, v: View, k: Kind) {
    match k
    case None => true
    case Leaf => LeavesOk(P.leaves, v.st)
    case Edge => EdgesOk(P.edges, P.strings, v) && StringsOk(P.edges, P.strings, v)
    case Branch4 => ListedOk(P.branches4, v.st, Branch4, 4)
    case Branch8 => ListedOk(P.branches8, v.st, Branch8, 8)
    case Branch16 => IndexedOk(P.branches16, v.st, Branch16, 16)
    case BranchFull => IndexedOk(P.branchesFull, v.st, BranchFull, 17)
  }

  /** Two sets of pools differ at most in the pools for cells of kind `k`. */
  ghost predicate PoolsBut(P: Pools, Q: Pools, k: Kind) {
    && (k != Leaf ==> P.leaves == Q.leaves)
    && (k != Edge ==> P.edges == Q.edges && P.strings == Q.strings)
    && (k != Branch4 ==> P.branches4 == Q.branches4)
    && (k != Branch8 ==> P.branches8 == Q.branches8)
    && (k != Branch16 ==> P.branches16 == Q.branches16)
    && (k != BranchFull ==> P.branchesFull == Q.branchesFull)
  }

  lemma TiesStep(P: Pools, v: View, Q: Pools, w: View, k: Kind)
    requires Ties(P, v) && k != None && PoolsBut(P, Q, k)
    requires SameBut(v.st, w.st, k) && w.keySize == v.keySize && (k != Edge ==> w.owner == v.owner)
    requires forall p :: p in w.st ==> p.kind != None
    requires TiesOn(Q, w, k)
    ensures Ties(Q, w)
  {
    hide LeavesOk, EdgesOk, StringsOk, ListedOk, IndexedOk, SameOn;
    if k != Leaf { KeepLeaves(P.leaves, v.st, w.st); }
    if k != Edge { KeepEdges(P.edges, P.strings, v, w.st); }
    if k != Branch4 { KeepListed(P.branches4, v.st, w.st, Branch4, 4); }
    if k != Branch8 { KeepListed(P.branches8, v.st, w.st, Branch8, 8); }
    if k != Branch16 { KeepIndexed(P.branches16, v.st, w.st, Branch16, 16); }
    if k != BranchFull { KeepIndexed(P.branchesFull, v.st, w.st, BranchFull, 17); }
  }

  lemma PutSame(st: Store, p: Ptr, c: Cell)
    ensures SameBut(st, st[p := c], p.kind)
  {
  }

  lemma DropSame(st: Store, p: Ptr)
    ensures SameBut(st, st - {p}, p.kind)
  {
  }

  lemma TiesEmpty(keySize: nat)
    ensures Ties(Pools(map[], map[], map[], map[], map[], map[], map[]), View(map[], map[], keySize))
  {
  }

  lemma TiesLeaf(P: Pools, v: View, i: nat, val: Value)
    requires Ties(P, v)
    ensures Ties(P.(leaves := P.leaves[i := val]), v.(st := v.st[Ptr(Leaf, i) := LeafCell(val)]))
  {
    hide EdgesOk, StringsOk, ListedOk, IndexedOk, SameBut;
    PutSame(v.st, Ptr(Leaf, i), LeafCell(val));
    TiesStep(P, v, P.(leaves := P.leaves[i := val]), v.(st := v.st[Ptr(Leaf, i) := LeafCell(val)]), Leaf);
  }

  // ------------------------------------------------------------------
  // Branches
  // ------------------------------------------------------------------

  function Put(b: ListedBranch, i: nat, v: Sym, q: Ptr): ListedBranch
    requires i < |b.values| == |b.entries|
  {
    ListedBranch(b.values[i := v], b.entries[i := q])
  }

  lemma SizeOfPut(ents: map<Sym, Ptr>, v: Sym, q: Ptr)
    ensures |ents[v := q]| == if v in ents then |ents| else |ents| + 1
  {
  }

  /** Writing at the slot that holds `v`, or else at the first free one, is a map update. */
  lemma ListsPut(b: ListedBranch, n: nat, ents: map<Sym, Ptr>, i: nat, v: Sym, q: Ptr)
    requires Lists(b, n, ents) && q.kind != None && i < n
    requires if v in ents then i < |ents| && b.values[i] == v else i == |ents|
    ensures Lists(Put(b, i, v, q), n, ents[v := q])
  {
    var c := Put(b, i, v, q);
    var m := ents[v := q];
    SizeOfPut(ents, v, q);
    forall j | 0 <= j < |m|
      ensures c.entries[j].kind != None && c.values[j] in m && m[c.values[j]] == c.entries[j] && (j != i ==> c.values[j] != v)
    {
      assert j != i ==> b.values[j] in ents && b.values[j] != v;
    }
    forall j, k | 0 <= j < k < |m| ensures c.values[j] != c.values[k] {
      assert j != i && k != i ==> b.values[j] != b.values[k];
    }
    forall x | x in m ensures Listed(c.values, |m|, x) {
      if x != v {
        assert Listed(b.values, |ents|, x);
        var j :| 0 <= j < |ents| && b.values[j] == x;
        assert c.values[j] == x;
      } else {
        assert c.values[i] == x;
      }
    }
  }

  /** The listed symbol of an occupied slot is found at that slot only. */
  lemma ListsFind(b: ListedBranch, n: nat, ents: map<Sym, Ptr>, v: Sym)
    requires Lists(b, n, ents)
    ensures v in ents <==> exists i :: 0 <= i < |ents| && b.values[i] == v
  {
    assert v in ents ==> Listed(b.values, |ents|, v);
  }

  /** A full branch of 4, copied to a branch of 8 with one more entry. */
  lemma ListsGrow(b: ListedBranch, ents: map<Sym, Ptr>, c: ListedBranch, v: Sym, q: Ptr)
    requires Lists(b, 4, ents) && |ents| == 4 && v !in ents && q.kind != None
    requires |c.values| == |c.entries| == 8
    requires forall i :: 0 <= i < 4 ==> c.values[i] == b.values[i] && c.entries[i] == b.entries[i]
    requires c.values[4] == v && c.entries[4] == q && forall i :: 5 <= i < 8 ==> c.entries[i].kind == None
    ensures Lists(c, 8, ents[v := q])
  {
    var m := ents[v := q];
    SizeOfPut(ents, v, q);
    forall i | 0 <= i < 5 ensures c.entries[i].kind != None && c.values[i] in m && m[c.values[i]] == c.entries[i] {
      assert i < 4 ==> b.values[i] in ents;
    }
    forall i, j | 0 <= i < j < 5 ensures c.values[i] != c.values[j] {
      assert b.values[i] in ents;
    }
    forall x | x in m ensures Listed(c.values, |m|, x) {
      if x != v {
        var j :| 0 <= j < |ents| && b.values[j] == x;
        assert c.values[j] == x;
      }
    }
  }

  ghost function ListedPool(P: Pools, k: Kind): map<nat, ListedBranch> {
    if k == Branch4 then P.branches4 else P.branches8
  }

  ghost function WithListed(P: Pools, k: Kind, pool: map<nat, ListedBranch>): Pools {
    if k == Branch4 then P.(branches4 := pool) else P.(branches8 := pool)
  }

  ghost function IndexedPool(P: Pools, k: Kind): map<nat, IndexedBranch> {
    if k == Branch16 then P.branches16 else P.branchesFull
  }

  ghost function WithIndexed(P: Pools, k: Kind, pool: map<nat, IndexedBranch>): Pools {
    if k == Branch16 then P.(branches16 := pool) else P.(branchesFull := pool)
  }

  lemma ListedPut(pool: map<nat, ListedBranch>, st: Store, k: Kind, n: nat, i: nat, b: ListedBranch, ents: map<Sym, Ptr>)
    requires ListedOk(pool, st, k, n) && Lists(b, n, ents)
    ensures ListedOk(pool[i := b], st[Ptr(k, i) := BranchCell(ents)], k, n)
  {
    hide Lists;
  }

  lemma ListedDrop(pool: map<nat, ListedBranch>, st: Store, k: Kind, n: nat, i: nat)
    requires ListedOk(pool, st, k, n)
    ensures ListedOk(pool - {i}, st - {Ptr(k, i)}, k, n)
  {
    hide Lists;
  }

  lemma IndexedPut(pool: map<nat, IndexedBranch>, st: Store, k: Kind, n: nat, i: nat, b: IndexedBranch, ents: map<Sym, Ptr>)
    requires IndexedOk(pool, st, k, n) && Indexes(b, n, ents)
    ensures IndexedOk(pool[i := b], st[Ptr(k, i) := BranchCell(ents)], k, n)
  {
    hide Indexes;
  }

  lemma IndexedDrop(pool: map<nat, IndexedBranch>, st: Store, k: Kind, n: nat, i: nat)
    requires IndexedOk(pool, st, k, n)
    ensures IndexedOk(pool - {i}, st - {Ptr(k, i)}, k, n)
  {
    hide Indexes;
  }

  lemma TiesListed(P: Pools, v: View, k: Kind, i: nat, b: ListedBranch, ents: map<Sym, Ptr>)
    requires Ties(P, v) && (k == Branch4 || k == Branch8)
    requires Lists(b, if k == Branch4 then 4 else 8, ents)
    ensures Ties(WithListed(P, k, ListedPool(P, k)[i := b]), v.(st := v.st[Ptr(k, i) := BranchCell(ents)]))
  {
    hide EdgesOk, StringsOk, LeavesOk, IndexedOk, ListedOk, SameBut, Lists;
    PutSame(v.st, Ptr(k, i), BranchCell(ents));
    ListedPut(ListedPool(P, k), v.st, k, if k == Branch4 then 4 else 8, i, b, ents);
    TiesStep(P, v, WithListed(P, k, ListedPool(P, k)[i := b]), v.(st := v.st[Ptr(k, i) := BranchCell(ents)]), k);
  }

  lemma TiesListedDrop(P: Pools, v: View, k: Kind, i: nat)
    requires Ties(P, v) && (k == Branch4 || k == Branch8)
    ensures Ties(WithListed(P, k, ListedPool(P, k) - {i}), v.(st := v.st - {Ptr(k, i)}))
  {
    hide EdgesOk, StringsOk, LeavesOk, IndexedOk, ListedOk, SameBut, Lists;
    DropSame(v.st, Ptr(k, i));
    ListedDrop(ListedPool(P, k), v.st, k, if k == Branch4 then 4 else 8, i);
    TiesStep(P, v, WithListed(P, k, ListedPool(P, k) - {i}), v.(st := v.st - {Ptr(k, i)}), k);
  }

  lemma TiesIndexed(P: Pools, v: View, k: Kind, i: nat, b: IndexedBranch, ents: map<Sym, Ptr>)
    requires Ties(P, v) && (k == Branch16 || k == BranchFull)
    requires Indexes(b, if k == Branch16 then 16 else 17, ents)
    ensures Ties(WithIndexed(P, k, IndexedPool(P, k)[i := b]), v.(st := v.st[Ptr(k, i) := BranchCell(ents)]))
  {
    hide EdgesOk, StringsOk, LeavesOk, ListedOk, IndexedOk, SameBut, Indexes;
    PutSame(v.st, Ptr(k, i), BranchCell(ents));
    IndexedPut(IndexedPool(P, k), v.st, k, if k == Branch16 then 16 else 17, i, b, ents);
    TiesStep(P, v, WithIndexed(P, k, IndexedPool(P, k)[i := b]), v.(st := v.st[Ptr(k, i) := BranchCell(ents)]), k);
  }

  lemma TiesIndexedDrop(P: Pools, v: View, k: Kind, i: nat)
    requires Ties(P, v) && (k == Branch16 || k == BranchFull)
    ensures Ties(WithIndexed(P, k, IndexedPool(P, k) - {i}), v.(st := v.st - {Ptr(k, i)}))
  {
    hide EdgesOk, StringsOk, LeavesOk, ListedOk, IndexedOk, SameBut, Indexes;
    DropSame(v.st, Ptr(k, i));
    IndexedDrop(IndexedPool(P, k), v.st, k, if k == Branch16 then 16 else 17, i);
    TiesStep(P, v, WithIndexed(P, k, IndexedPool(P, k) - {i}), v.(st := v.st - {Ptr(k, i)}), k);
  }

  // Which slots of which pool the store knows about.

  lemma LeafSlot(P: Pools, v: View, i: nat)
    requires Ties(P, v)
    ensures i in P.leaves <==> Ptr(Leaf, i) in v.st
  {
    hide EdgesOk, StringsOk, ListedOk, IndexedOk;
  }

  lemma EdgeSlot(P: Pools, v: View, i: nat)
    requires Ties(P, v)
    ensures i in P.edges <==> Ptr(Edge, i) in v.st
  {
    hide LeavesOk, StringsOk, ListedOk, IndexedOk;
  }

  lemma ListedSlot(P: Pools, v: View, k: Kind, i: nat)
    requires Ties(P, v) && (k == Branch4 || k == Branch8)
    ensures i in ListedPool(P, k) <==> Ptr(k, i) in v.st
  {
    hide LeavesOk, EdgesOk, StringsOk, IndexedOk, Lists;
  }

  lemma IndexedSlot(P: Pools, v: View, k: Kind, i: nat)
    requires Ties(P, v) && (k == Branch16 || k == BranchFull)
    ensures i in IndexedPool(P, k) <==> Ptr(k, i) in v.st
  {
    hide LeavesOk, EdgesOk, StringsOk, ListedOk, Indexes;
  }

  lemma TiesBranch(P: Pools, v: View, p: Ptr)
    requires Ties(P, v) && p in v.st && p.kind.IsBranch()
    ensures v.st[p].BranchCell?
    ensures p.kind == Branch4 ==> p.idx in P.branches4 && Lists(P.branches4[p.idx], 4, v.st[p].ents)
    ensures p.kind == Branch8 ==> p.idx in P.branches8 && Lists(P.branches8[p.idx], 8, v.st[p].ents)
    ensures p.kind == Branch16 ==> p.idx in P.branches16 && Indexes(P.branches16[p.idx], 16, v.st[p].ents)
    ensures p.kind == BranchFull ==> p.idx in P.branchesFull && Indexes(P.branchesFull[p.idx], 17, v.st[p].ents)
  {
    hide Lists, Indexes;
    assert p == Ptr(p.kind, p.idx);
  }

  // ------------------------------------------------------------------
  // Edges and their text
  // ------------------------------------------------------------------

  ghost predicate EdgePoolOk(pool: map<nat, EdgeNode>, strings: map<nat, seq<Byte>>, v: View) {
    EdgesOk(pool, strings, v) && StringsOk(pool, strings, v)
  }

  /** Changing the edge pool and its strings keeps the pools of the other kinds tied. */
  lemma TiesEdgePool(P: Pools, v: View, pool: map<nat, EdgeNode>, strings: map<nat, seq<Byte>>, w: View)
    requires Ties(P, v) && EdgePoolOk(pool, strings, w)
    requires SameBut(v.st, w.st, Edge) && w.keySize == v.keySize
    requires forall p :: p in w.st ==> p.kind != None
    ensures Ties(P.(edges := pool, strings := strings), w)
  {
    hide LeavesOk, ListedOk, IndexedOk, EdgesOk, StringsOk, SameBut;
    TiesStep(P, v, P.(edges := pool, strings := strings), w, Edge);
  }

  lemma TiesEdges(P: Pools, v: View)
    requires Ties(P, v)
    ensures EdgePoolOk(P.edges, P.strings, v)
    ensures forall p :: p in v.st ==> p.kind != None
  {
    hide LeavesOk, ListedOk, IndexedOk, EdgesOk, StringsOk;
  }

  /** Every edge but `i` keeps its node, its cell and its string. */
  ghost predicate OthersKept(pool: map<nat, EdgeNode>, strings: map<nat, seq<Byte>>, v: View,
                             pool2: map<nat, EdgeNode>, strings2: map<nat, seq<Byte>>, w: View, i: nat) {
    && w.keySize == v.keySize
    && (forall j {:trigger j in pool2} :: j != i ==> (j in pool2 <==> j in pool))
    && (forall j {:trigger pool2[j]} :: j != i && j in pool2 && j in pool ==> pool2[j] == pool[j])
    && (forall j {:trigger Ptr(Edge, j)} :: j != i ==> (Ptr(Edge, j) in w.st <==> Ptr(Edge, j) in v.st))
    && (forall j {:trigger Ptr(Edge, j)} :: j != i && Ptr(Edge, j) in w.st && Ptr(Edge, j) in v.st ==>
          w.st[Ptr(Edge, j)] == v.st[Ptr(Edge, j)])
    && (forall s {:trigger v.owner[s]} :: s in v.owner && v.owner[s] != i ==>
          && s in w.owner && w.owner[s] == v.owner[s]
          && (s in strings ==> s in strings2 && strings2[s] == strings[s]))
  }

  lemma EdgeKept(j: nat, n: EdgeNode, strings: map<nat, seq<Byte>>, v: View, strings2: map<nat, seq<Byte>>, w: View, c: Cell)
    requires EdgeOk(j, n, strings, v, c) && w.keySize == v.keySize
    requires n.data.Pooled? && n.length > SMALL_STR_SIZE ==>
               var s := n.data.stringIdx;
               s in w.owner && w.owner[s] == j && s in strings2 && s in strings && strings2[s] == strings[s]
    ensures EdgeOk(j, n, strings2, w, c)
  {
  }

  lemma EdgeOwns(j: nat, n: EdgeNode, strings: map<nat, seq<Byte>>, v: View, c: Cell)
    requires EdgeOk(j, n, strings, v, c) && n.length > SMALL_STR_SIZE
    ensures n.data.Pooled? && n.data.stringIdx in strings && n.data.stringIdx in v.owner && v.owner[n.data.stringIdx] == j
    ensures n.length <= 2 * v.keySize
  {
  }

  /** Changing edge `i` alone. */
  lemma EdgesStep(pool: map<nat, EdgeNode>, strings: map<nat, seq<Byte>>, v: View,
                  pool2: map<nat, EdgeNode>, strings2: map<nat, seq<Byte>>, w: View, i: nat)
    requires EdgesOk(pool, strings, v) && OthersKept(pool, strings, v, pool2, strings2, w, i)
    requires i in pool2 <==> Ptr(Edge, i) in w.st
    requires i in pool2 ==> EdgeOk(i, pool2[i], strings2, w, w.st[Ptr(Edge, i)])
    ensures EdgesOk(pool2, strings2, w)
  {
    hide EdgeOk;
    forall j | j in pool2 ensures Ptr(Edge, j) in w.st && EdgeOk(j, pool2[j], strings2, w, w.st[Ptr(Edge, j)]) {
      if j != i {
        assert EdgeOk(j, pool[j], strings, v, v.st[Ptr(Edge, j)]);
        if pool[j].length > SMALL_STR_SIZE {
          EdgeOwns(j, pool[j], strings, v, v.st[Ptr(Edge, j)]);
        }
        EdgeKept(j, pool[j], strings, v, strings2, w, v.st[Ptr(Edge, j)]);
      }
    }
  }

  /** An edge with its text inline, in a slot that owns no string. */
  ghost function InlineView(v: View, i: nat, n: EdgeNode): View
    requires n.data.Inline? && n.length <= 2 * |n.data.bytes|
  {
    v.(st := v.st[Ptr(Edge, i) := EdgeCell(NibbleStr(n.data.bytes, 0, n.length), n.next)])
  }

  lemma EdgesInline(pool: map<nat, EdgeNode>, strings: map<nat, seq<Byte>>, v: View, i: nat, n: EdgeNode)
    requires EdgePoolOk(pool, strings, v) && (i in pool ==> pool[i].length <= SMALL_STR_SIZE)
    requires n.length <= 2 * v.keySize
    requires n.length <= SMALL_STR_SIZE && n.data.Inline? && |n.data.bytes| == EDGE_DATA_SIZE
    ensures EdgePoolOk(pool[i := n], strings, InlineView(v, i, n))
  {
    hide EdgeOk, EdgesOk, StringsOk, OthersKept;
    var w := InlineView(v, i, n);
    InlineKeeps(pool, strings, v, i, n);
    EdgesStep(pool, strings, v, pool[i := n], strings, w, i);
  }

  lemma InlineKeeps(pool: map<nat, EdgeNode>, strings: map<nat, seq<Byte>>, v: View, i: nat, n: EdgeNode)
    requires StringsOk(pool, strings, v) && (i in pool ==> pool[i].length <= SMALL_STR_SIZE)
    requires n.length <= 2 * v.keySize
    requires n.length <= SMALL_STR_SIZE && n.data.Inline? && |n.data.bytes| == EDGE_DATA_SIZE
    ensures OthersKept(pool, strings, v, pool[i := n], strings, InlineView(v, i, n), i)
    ensures StringsOk(pool[i := n], strings, InlineView(v, i, n))
    ensures EdgeOk(i, n, strings, InlineView(v, i, n), InlineView(v, i, n).st[Ptr(Edge, i)])
  {
  }

  /** An edge with its text in a string slot of its own. */
  ghost function PooledView(v: View, i: nat, n: EdgeNode, s: nat, bytes: seq<Byte>): View
    requires n.length <= 2 * |bytes|
  {
    v.(st := v.st[Ptr(Edge, i) := EdgeCell(NibbleStr(bytes, 0, n.length), n.next)], owner := v.owner[s := i])
  }

  lemma EdgesPooled(pool: map<nat, EdgeNode>, strings: map<nat, seq<Byte>>, v: View, i: nat, n: EdgeNode, s: nat,
                    bytes: seq<Byte>)
    requires EdgePoolOk(pool, strings, v) && (i in pool ==> pool[i].length <= SMALL_STR_SIZE) && s !in strings
    requires SMALL_STR_SIZE < n.length <= 2 * v.keySize && n.data == Pooled(s) && |bytes| == v.keySize
    ensures EdgePoolOk(pool[i := n], strings[s := bytes], PooledView(v, i, n, s, bytes))
  {
    hide EdgeOk, EdgesOk, StringsOk, OthersKept;
    var w := PooledView(v, i, n, s, bytes);
    PooledKeeps(pool, strings, v, i, n, s, bytes);
    EdgesStep(pool, strings, v, pool[i := n], strings[s := bytes], w, i);
  }

  lemma PooledKeeps(pool: map<nat, EdgeNode>, strings: map<nat, seq<Byte>>, v: View, i: nat, n: EdgeNode, s: nat,
                    bytes: seq<Byte>)
    requires StringsOk(pool, strings, v) && (i in pool ==> pool[i].length <= SMALL_STR_SIZE) && s !in strings
    requires SMALL_STR_SIZE < n.length <= 2 * v.keySize && n.data == Pooled(s) && |bytes| == v.keySize
    ensures OthersKept(pool, strings, v, pool[i := n], strings[s := bytes], PooledView(v, i, n, s, bytes), i)
    ensures StringsOk(pool[i := n], strings[s := bytes], PooledView(v, i, n, s, bytes))
    ensures EdgeOk(i, n, strings[s := bytes], PooledView(v, i, n, s, bytes), PooledView(v, i, n, s, bytes).st[Ptr(Edge, i)])
  {
    hide NibbleStr;
    var w := PooledView(v, i, n, s, bytes);
    assert w.owner.Keys == v.owner.Keys + {s} && strings[s := bytes].Keys == strings.Keys + {s};
  }

  /** Shorten an edge or give it a new target while its text stays where it is. */
  ghost function RewriteView(v: View, i: nat, n: EdgeNode): View
    requires Ptr(Edge, i) in v.st && v.st[Ptr(Edge, i)].EdgeCell? && n.length <= |v.st[Ptr(Edge, i)].str|
  {
    v.(st := v.st[Ptr(Edge, i) := EdgeCell(v.st[Ptr(Edge, i)].str[..n.length], n.next)])
  }

  lemma RewriteOk(m: EdgeNode, strings: map<nat, seq<Byte>>, v: View, i: nat, n: EdgeNode)
    requires Ptr(Edge, i) in v.st && EdgeOk(i, m, strings, v, v.st[Ptr(Edge, i)])
    requires n.data == m.data && n.length <= m.length
    requires n.length <= SMALL_STR_SIZE <==> m.length <= SMALL_STR_SIZE
    ensures EdgeOk(i, n, strings, RewriteView(v, i, n), RewriteView(v, i, n).st[Ptr(Edge, i)])
  {
    var bytes := TextBytes(i, m, strings, v);
    assert NibbleStr(bytes, 0, m.length)[..n.length] == NibbleStr(bytes, 0, n.length);
  }

  lemma CellOf(i: nat, n: EdgeNode, strings: map<nat, seq<Byte>>, v: View, c: Cell)
    requires EdgeOk(i, n, strings, v, c)
    ensures c.EdgeCell? && |c.str| == n.length
  {
  }

  lemma RewriteKeeps(pool: map<nat, EdgeNode>, strings: map<nat, seq<Byte>>, v: View, i: nat, n: EdgeNode)
    requires StringsOk(pool, strings, v) && i in pool
    requires n.data == pool[i].data
    requires n.length <= SMALL_STR_SIZE <==> pool[i].length <= SMALL_STR_SIZE
    requires Ptr(Edge, i) in v.st && v.st[Ptr(Edge, i)].EdgeCell? && n.length <= |v.st[Ptr(Edge, i)].str|
    ensures OthersKept(pool, strings, v, pool[i := n], strings, RewriteView(v, i, n), i)
    ensures StringsOk(pool[i := n], strings, RewriteView(v, i, n))
  {
  }

  lemma FinishStep(pool: map<nat, EdgeNode>, strings: map<nat, seq<Byte>>, v: View,
                   pool2: map<nat, EdgeNode>, strings2: map<nat, seq<Byte>>, w: View, i: nat)
    requires EdgesOk(pool, strings, v) && OthersKept(pool, strings, v, pool2, strings2, w, i)
    requires StringsOk(pool2, strings2, w)
    requires i in pool2 <==> Ptr(Edge, i) in w.st
    requires i in pool2 ==> EdgeOk(i, pool2[i], strings2, w, w.st[Ptr(Edge, i)])
    ensures EdgePoolOk(pool2, strings2, w)
  {
    hide EdgeOk, EdgesOk, StringsOk, OthersKept;
    EdgesStep(pool, strings, v, pool2, strings2, w, i);
  }

  lemma EdgesRewrite(pool: map<nat, EdgeNode>, strings: map<nat, seq<Byte>>, v: View, i: nat, n: EdgeNode)
    requires EdgePoolOk(pool, strings, v) && i in pool
    requires n.data == pool[i].data && n.length <= pool[i].length
    requires n.length <= SMALL_STR_SIZE <==> pool[i].length <= SMALL_STR_SIZE
    ensures Ptr(Edge, i) in v.st && v.st[Ptr(Edge, i)].EdgeCell? && |v.st[Ptr(Edge, i)].str| == pool[i].length
    ensures EdgePoolOk(pool[i := n], strings, RewriteView(v, i, n))
  {
    hide EdgeOk, StringsOk, OthersKept;
    assert EdgeOk(i, pool[i], strings, v, v.st[Ptr(Edge, i)]);
    CellOf(i, pool[i], strings, v, v.st[Ptr(Edge, i)]);
    RewriteOk(pool[i], strings, v, i, n);
    RewriteKeeps(pool, strings, v, i, n);
    FinishStep(pool, strings, v, pool[i := n], strings, RewriteView(v, i, n), i);
  }

  /** Drop an edge that owns no string. */
  lemma EdgesDropInline(pool: map<nat, EdgeNode>, strings: map<nat, seq<Byte>>, v: View, i: nat)
    requires EdgePoolOk(pool, strings, v) && i in pool && pool[i].length <= SMALL_STR_SIZE
    ensures EdgePoolOk(pool - {i}, strings, v.(st := v.st - {Ptr(Edge, i)}))
  {
    var w := v.(st := v.st - {Ptr(Edge, i)});
    forall j | j in pool && j != i ensures EdgeOk(j, pool[j], strings, w, w.st[Ptr(Edge, j)]) {
      assert EdgeOk(j, pool[j], strings, v, v.st[Ptr(Edge, j)]);
    }
  }

  /** Drop an edge together with its string. */
  lemma EdgesDropPooled(pool: map<nat, EdgeNode>, strings: map<nat, seq<Byte>>, v: View, i: nat)
    requires EdgePoolOk(pool, strings, v) && i in pool && pool[i].length > SMALL_STR_SIZE
    ensures pool[i].data.Pooled? && pool[i].data.stringIdx in strings
    ensures EdgePoolOk(pool - {i}, strings - {pool[i].data.stringIdx},
                       v.(st := v.st - {Ptr(Edge, i)}, owner := v.owner - {pool[i].data.stringIdx}))
  {
    assert EdgeOk(i, pool[i], strings, v, v.st[Ptr(Edge, i)]);
    var s := pool[i].data.stringIdx;
    var w := v.(st := v.st - {Ptr(Edge, i)}, owner := v.owner - {s});
    forall j | j in pool && j != i ensures EdgeOk(j, pool[j], strings - {s}, w, w.st[Ptr(Edge, j)]) {
      assert EdgeOk(j, pool[j], strings, v, v.st[Ptr(Edge, j)]);
    }
  }

  lemma MoveInKeeps(pool: map<nat, EdgeNode>, strings: map<nat, seq<Byte>>, v: View, i: nat, n: EdgeNode)
    requires StringsOk(pool, strings, v) && i in pool && pool[i].length > SMALL_STR_SIZE
    requires n.length <= SMALL_STR_SIZE && n.data.Inline? && |n.data.bytes| == EDGE_DATA_SIZE
    requires pool[i].data.Pooled? && pool[i].data.stringIdx in v.owner && v.owner[pool[i].data.stringIdx] == i
    requires n.length <= 2 * v.keySize
    ensures var s := pool[i].data.stringIdx;
            var w := InlineView(v, i, n).(owner := v.owner - {s});
            && OthersKept(pool, strings, v, pool[i := n], strings - {s}, w, i)
            && StringsOk(pool[i := n], strings - {s}, w)
            && EdgeOk(i, n, strings - {s}, w, w.st[Ptr(Edge, i)])
  {
    hide NibbleStr;
    var s := pool[i].data.stringIdx;
    assert (v.owner - {s}).Keys == v.owner.Keys - {s} && (strings - {s}).Keys == strings.Keys - {s};
  }

  /** The string of a long edge, taken away while its text moves inline. */
  lemma EdgesMoveIn(pool: map<nat, EdgeNode>, strings: map<nat, seq<Byte>>, v: View, i: nat, n: EdgeNode)
    requires EdgePoolOk(pool, strings, v) && i in pool && pool[i].length > SMALL_STR_SIZE
    requires n.length <= SMALL_STR_SIZE && n.data.Inline? && |n.data.bytes| == EDGE_DATA_SIZE
    ensures pool[i].data.Pooled? && pool[i].data.stringIdx in strings
    ensures EdgePoolOk(pool[i := n], strings - {pool[i].data.stringIdx},
                       InlineView(v, i, n).(owner := v.owner - {pool[i].data.stringIdx}))
  {
    hide EdgeOk, StringsOk, OthersKept;
    assert EdgeOk(i, pool[i], strings, v, v.st[Ptr(Edge, i)]);
    EdgeOwns(i, pool[i], strings, v, v.st[Ptr(Edge, i)]);
    MoveInKeeps(pool, strings, v, i, n);
    FinishStep(pool, strings, v, pool[i := n], strings - {pool[i].data.stringIdx},
               InlineView(v, i, n).(owner := v.owner - {pool[i].data.stringIdx}), i);
  }

  // The same for all the pools.

  lemma TiesInline(P: Pools, v: View, i: nat, n: EdgeNode)
    requires Ties(P, v) && (i in P.edges ==> P.edges[i].length <= SMALL_STR_SIZE)
    requires n.length <= 2 * v.keySize
    requires n.length <= SMALL_STR_SIZE && n.data.Inline? && |n.data.bytes| == EDGE_DATA_SIZE
    ensures Ties(P.(edges := P.edges[i := n]), InlineView(v, i, n))
  {
    hide Ties, EdgePoolOk, SameBut;
    TiesEdges(P, v);
    EdgesInline(P.edges, P.strings, v, i, n);
    PutSame(v.st, Ptr(Edge, i), InlineView(v, i, n).st[Ptr(Edge, i)]);
    TiesEdgePool(P, v, P.edges[i := n], P.strings, InlineView(v, i, n));
  }

  lemma TiesPooled(P: Pools, v: View, i: nat, n: EdgeNode, s: nat, bytes: seq<Byte>)
    requires Ties(P, v) && (i in P.edges ==> P.edges[i].length <= SMALL_STR_SIZE) && s !in P.strings
    requires SMALL_STR_SIZE < n.length <= 2 * v.keySize && n.data == Pooled(s) && |bytes| == v.keySize
    ensures Ties(P.(edges := P.edges[i := n], strings := P.strings[s := bytes]), PooledView(v, i, n, s, bytes))
  {
    hide Ties, EdgePoolOk, SameBut;
    TiesEdges(P, v);
    EdgesPooled(P.edges, P.strings, v, i, n, s, bytes);
    PutSame(v.st, Ptr(Edge, i), PooledView(v, i, n, s, bytes).st[Ptr(Edge, i)]);
    TiesEdgePool(P, v, P.edges[i := n], P.strings[s := bytes], PooledView(v, i, n, s, bytes));
  }

  lemma TiesRewrite(P: Pools, v: View, i: nat, n: EdgeNode)
    requires Ties(P, v) && i in P.edges
    requires n.data == P.edges[i].data && n.length <= P.edges[i].length
    requires n.length <= SMALL_STR_SIZE <==> P.edges[i].length <= SMALL_STR_SIZE
    ensures Ptr(Edge, i) in v.st && v.st[Ptr(Edge, i)].EdgeCell? && n.length <= |v.st[Ptr(Edge, i)].str|
    ensures Ties(P.(edges := P.edges[i := n]), RewriteView(v, i, n))
  {
    hide Ties, EdgePoolOk, SameBut;
    TiesEdges(P, v);
    EdgesRewrite(P.edges, P.strings, v, i, n);
    PutSame(v.st, Ptr(Edge, i), RewriteView(v, i, n).st[Ptr(Edge, i)]);
    TiesEdgePool(P, v, P.edges[i := n], P.strings, RewriteView(v, i, n));
  }

  lemma TiesMoveIn(P: Pools, v: View, i: nat, n: EdgeNode)
    requires Ties(P, v) && i in P.edges && P.edges[i].length > SMALL_STR_SIZE
    requires n.length <= SMALL_STR_SIZE && n.data.Inline? && |n.data.bytes| == EDGE_DATA_SIZE
    ensures P.edges[i].data.Pooled? && P.edges[i].data.stringIdx in P.strings
    ensures var s := P.edges[i].data.stringIdx;
            Ties(P.(edges := P.edges[i := n], strings := P.strings - {s}), InlineView(v, i, n).(owner := v.owner - {s}))
  {
    hide Ties, EdgePoolOk, SameBut;
    TiesEdges(P, v);
    EdgesMoveIn(P.edges, P.strings, v, i, n);
    var s := P.edges[i].data.stringIdx;
    var w := InlineView(v, i, n).(owner := v.owner - {s});
    PutSame(v.st, Ptr(Edge, i), w.st[Ptr(Edge, i)]);
    TiesEdgePool(P, v, P.edges[i := n], P.strings - {s}, w);
  }

  lemma TiesDropShort(P: Pools, v: View, i: nat)
    requires Ties(P, v) && i in P.edges && P.edges[i].length <= SMALL_STR_SIZE
    ensures Ties(P.(edges := P.edges - {i}), v.(st := v.st - {Ptr(Edge, i)}))
  {
    hide Ties, EdgePoolOk, SameBut;
    TiesEdges(P, v);
    EdgesDropInline(P.edges, P.strings, v, i);
    DropSame(v.st, Ptr(Edge, i));
    TiesEdgePool(P, v, P.edges - {i}, P.strings, v.(st := v.st - {Ptr(Edge, i)}));
  }

  lemma TiesDropLong(P: Pools, v: View, i: nat)
    requires Ties(P, v) && i in P.edges && P.edges[i].length > SMALL_STR_SIZE
    ensures P.edges[i].data.Pooled? && P.edges[i].data.stringIdx in P.strings
    ensures var s := P.edges[i].data.stringIdx;
            Ties(P.(edges := P.edges - {i}, strings := P.strings - {s}),
                 v.(st := v.st - {Ptr(Edge, i)}, owner := v.owner - {s}))
  {
    hide Ties, EdgePoolOk, SameBut;
    TiesEdges(P, v);
    EdgesDropPooled(P.edges, P.strings, v, i);
    var s := P.edges[i].data.stringIdx;
    DropSame(v.st, Ptr(Edge, i));
    TiesEdgePool(P, v, P.edges - {i}, P.strings - {s}, v.(st := v.st - {Ptr(Edge, i)}, owner := v.owner - {s}));
  }

  lemma TiesFetch(P: Pools, v: View, p: Ptr)
    requires Ties(P, v) && p in v.st && p.kind == Edge
    ensures p.idx in P.edges && EdgeOk(p.idx, P.edges[p.idx], P.strings, v, v.st[p])
  {
    assert p == Ptr(Edge, p.idx);
  }

  class Arena {
    const edges: FreeList<EdgeNode>
    const leaves: FreeList<Value>
    const strings: FreeList<seq<Byte>>
    const branches4: FreeList<ListedBranch>
    const branches8: FreeList<ListedBranch>
    const branches16: FreeList<IndexedBranch>
    const branchesFull: FreeList<IndexedBranch>
    /** Bytes in one string slot. */
    const keySize: nat
    ghost var st: Store
    ghost var owner: map<nat, nat>

    ghost function Footprint(): set<object> {
      {edges as object, leaves as object, strings as object, branches4 as object,
       branches8 as object, branches16 as object, branchesFull as object}
    }

    ghost predicate PoolsValid()
      reads edges, leaves, strings, branches4, branches8, branches16, branchesFull
    {
      && branches4 != branches8 && branches16 != branchesFull
      && edges.Valid() && leaves.Valid() && strings.Valid()
      && branches4.Valid() && branches8.Valid() && branches16.Valid() && branchesFull.Valid()
    }

    ghost function Snapshot(): Pools
      reads edges, leaves, strings, branches4, branches8, branches16, branchesFull
    {
      Pools(edges.live, leaves.live, strings.live, branches4.live, branches8.live, branches16.live, branchesFull.live)
    }

    ghost predicate Valid()
      reads this, edges, leaves, strings, branches4, branches8, branches16, branchesFull
    {
      PoolsValid() && Ties(Snapshot(), View(st, owner, keySize))
    }

    constructor (defaultCap: nat, keyLength: nat)
      requires 0 < defaultCap
      ensures Valid() && st == map[] && keySize == keyLength
      ensures fresh(edges) && fresh(leaves) && fresh(strings)
      ensures fresh(branches4) && fresh(branches8) && fresh(branches16) && fresh(branchesFull)
    {
      hide FreeList.Valid, LeavesOk, EdgesOk, StringsOk, ListedOk, IndexedOk;
      keySize := keyLength;
      branches4 := new FreeList((defaultCap + 32) / 32, EmptyListed(4));
      branches8 := new FreeList((defaultCap + 32) / 32, EmptyListed(8));
      branches16 := new FreeList((defaultCap + 32) / 32, EmptyIndexed(16));
      branchesFull := new FreeList((defaultCap + 128) / 128, EmptyIndexed(17));
      edges := new FreeList(defaultCap, EdgeNode(Pooled(0), 0, NIL));
      leaves := new FreeList(defaultCap, 0);
      strings := new FreeList(if keyLength > SMALL_STR_SIZE then defaultCap else 1, []);
      st := map[];
      owner := map[];
      TiesEmpty(keyLength);
    }

    method CreateLeaf(value: Value) returns (p: Ptr)
      requires Valid()
      modifies this`st, leaves
      ensures Valid()
      ensures p.kind == Leaf && p !in old(st) && st == old(st)[p := LeafCell(value)]
    {
      hide Ties, FreeList.Valid;
      ghost var P, v := Snapshot(), View(st, owner, keySize);
      var idx := leaves.Insert(value);
      LeafSlot(P, v, idx);
      TiesLeaf(P, v, idx, value);
      p := Ptr(Leaf, idx);
      st := st[p := LeafCell(value)];
    }

    method WriteLeaf(p: Ptr, value: Value)
      requires Valid() && p in st && p.kind == Leaf
      modifies this`st, leaves
      ensures Valid()
      ensures st == old(st)[p := LeafCell(value)]
    {
      hide Ties, FreeList.Valid;
      ghost var P, v := Snapshot(), View(st, owner, keySize);
      LeafSlot(P, v, p.idx);
      TiesLeaf(P, v, p.idx, value);
      leaves.Write(p.idx, value);
      st := st[p := LeafCell(value)];
    }

    method FetchLeaf(p: Ptr) returns (value: Value)
      requires Valid() && p in st && p.kind == Leaf
      ensures st[p] == LeafCell(value)
    {
      value := leaves.data[p.idx];
    }

    /** Store inline text for an edge that owns no string. */
    method SetInline(i: nat, n: EdgeNode)
      requires Valid() && i in edges.live && edges.live[i].length <= SMALL_STR_SIZE && n.length <= 2 * keySize
      requires n.length <= SMALL_STR_SIZE && n.data.Inline? && |n.data.bytes| == EDGE_DATA_SIZE
      modifies this`st, edges
      ensures Valid()
      ensures st == old(st)[Ptr(Edge, i) := EdgeCell(NibbleStr(n.data.bytes, 0, n.length), n.next)]
    {
      hide Ties, FreeList.Valid;
      ghost var P, v := Snapshot(), View(st, owner, keySize);
      TiesInline(P, v, i, n);
      edges.Write(i, n);
      st := InlineView(v, i, n).st;
    }

    lemma SnapshotEdge(i: nat)
      requires i in edges.live
      ensures i in Snapshot().edges && Snapshot().edges[i] == edges.live[i]
    {
    }

    /** Put text in a new string slot, and the edge's node with that slot in it. */
    method PutText(i: nat, n: EdgeNode, bytes: seq<Byte>) returns (s: nat, m: EdgeNode)
      requires PoolsValid() && i in Snapshot().edges
      modifies edges, strings
      ensures PoolsValid() && s !in old(Snapshot()).strings && m == n.(data := Pooled(s))
      ensures Snapshot() == old(Snapshot().(edges := Snapshot().edges[i := m], strings := Snapshot().strings[s := bytes]))
    {
      hide FreeList.Valid;
      s := strings.Insert(bytes);
      m := n.(data := Pooled(s));
      edges.Write(i, m);
    }

    /** Store long text for an edge in a new string slot. */
    method SetPooled(i: nat, n: EdgeNode, bytes: seq<Byte>)
      requires Valid() && i in edges.live && edges.live[i].length <= SMALL_STR_SIZE
      requires SMALL_STR_SIZE < n.length <= 2 * keySize && |bytes| == keySize
      modifies this`st, this`owner, edges, strings
      ensures Valid()
      ensures st == old(st)[Ptr(Edge, i) := EdgeCell(NibbleStr(bytes, 0, n.length), n.next)]
    {
      hide Ties, PoolsValid, Snapshot;
      ghost var P, v := Snapshot(), View(st, owner, keySize);
      SnapshotEdge(i);
      var s, m := PutText(i, n, bytes);
      TiesPooled(P, v, i, m, s, bytes);
      st := PooledView(v, i, m, s, bytes).st;
      owner := owner[s := i];
    }

    /** A slot for an edge, with no text yet. */
    method NewEdge(next: Ptr) returns (idx: nat)
      requires Valid()
      modifies this`st, edges
      ensures Valid() && Ptr(Edge, idx) !in old(st)
      ensures idx in edges.live && edges.live[idx].length <= SMALL_STR_SIZE
      ensures st == old(st)[Ptr(Edge, idx) := EdgeCell([], next)]
    {
      hide Ties, FreeList.Valid;
      ghost var P, v := Snapshot(), View(st, owner, keySize);
      var n := EdgeNode(Inline(seq(EDGE_DATA_SIZE, i => 0)), 0, next);
      idx := edges.Insert(n);
      EdgeSlot(P, v, idx);
      TiesInline(P, v, idx, n);
      st := InlineView(v, idx, n).st;
    }

    /** A new edge for `length` nibbles of `key` from `offset` on. The text is copied out first,
        because `key` may point into a pool that is about to grow. */
    method CreateEdge(key: seq<Byte>, offset: nat, length: nat, next: Ptr) returns (p: Ptr)
      requires Valid() && offset + length <= 2 * |key| && length <= 2 * keySize
      modifies this`st, this`owner, edges, strings
      ensures Valid()
      ensures p.kind == Edge && p !in old(st)
      ensures st == old(st)[p := EdgeCell(NibbleStr(key, offset, length), next)]
    {
      hide Ties, PoolsValid, Snapshot;
      var buf := new Byte[keySize](_ => 0);
      CopyKey(buf, key, offset, length);
      var idx := NewEdge(next);
      p := Ptr(Edge, idx);
      if length > SMALL_STR_SIZE {
        SetPooled(idx, EdgeNode(Pooled(0), length, next), buf[..]);
      } else {
        var text := InlineText(buf[..], (length + 1) / 2);
        BytesDetermineNibbles(buf[..], text, 0, length);
        SetInline(idx, EdgeNode(Inline(text), length, next));
      }
    }

    /** The text, length and target of an edge. */
    method FetchEdge(p: Ptr) returns (bytes: seq<Byte>, length: nat, next: Ptr)
      requires Valid() && p in st && p.kind == Edge
      ensures length <= 2 * |bytes| && st[p] == EdgeCell(NibbleStr(bytes, 0, length), next)
      ensures length <= 2 * keySize
    {
      hide Ties, FreeList.Valid;
      TiesFetch(Snapshot(), View(st, owner, keySize), p);
      var n := edges.Read(p.idx);
      if n.length > SMALL_STR_SIZE {
        bytes := strings.Read(n.data.stringIdx);
      } else {
        bytes := n.data.bytes;
      }
      length, next := n.length, n.next;
    }

    /** Give an edge a new target, keeping its first `length` nibbles where they are. */
    method RewriteEdge(p: Ptr, length: nat, next: Ptr)
      requires Valid() && p in st && p.kind == Edge && st[p].EdgeCell? && length <= |st[p].str|
      requires length <= SMALL_STR_SIZE <==> |st[p].str| <= SMALL_STR_SIZE
      modifies this`st, edges
      ensures Valid()
      ensures st == old(st)[p := EdgeCell(old(st)[p].str[..length], next)]
    {
      hide Ties, FreeList.Valid;
      ghost var P, v := Snapshot(), View(st, owner, keySize);
      TiesFetch(P, v, p);
      var m := edges.Read(p.idx);
      var n := m.(length := length, next := next);
      CellOf(p.idx, m, P.strings, v, st[p]);
      TiesRewrite(P, v, p.idx, n);
      edges.Write(p.idx, n);
      st := RewriteView(v, p.idx, n).st;
    }

    method SetEdgeNext(p: Ptr, next: Ptr)
      requires Valid() && p in st && p.kind == Edge && st[p].EdgeCell?
      modifies this`st, edges
      ensures Valid()
      ensures st == old(st)[p := EdgeCell(old(st)[p].str, next)]
    {
      hide Ties, PoolsValid, Snapshot;
      var _, length, _ := FetchEdge(p);
      RewriteEdge(p, length, next);
      assert old(st)[p].str[..length] == old(st)[p].str;
    }

    /** What is in an edge slot. */
    method ReadEdge(i: nat) returns (m: EdgeNode)
      requires PoolsValid() && i in edges.live
      ensures i in Snapshot().edges && m == edges.live[i] == Snapshot().edges[i]
    {
      m := edges.Read(i);
    }

    /** Overwrite an edge and give back a string slot. */
    method WriteAndRemove(i: nat, n: EdgeNode, s: nat)
      requires PoolsValid() && i in Snapshot().edges && s in Snapshot().strings
      modifies edges, strings
      ensures PoolsValid() && i in edges.live && edges.live[i] == n
      ensures Snapshot() == old(Snapshot().(edges := Snapshot().edges[i := n], strings := Snapshot().strings - {s}))
    {
      hide FreeList.Valid;
      strings.Remove(s);
      edges.Write(i, n);
    }

    /** Replace a long edge by the short `n` and give its string back. */
    method ReplaceLong(i: nat, n: EdgeNode)
      requires Valid() && i in edges.live && edges.live[i].length > SMALL_STR_SIZE
      requires n.length <= SMALL_STR_SIZE && n.data.Inline? && |n.data.bytes| == EDGE_DATA_SIZE
      modifies this`st, this`owner, edges, strings
      ensures Valid() && i in edges.live && edges.live[i] == n
      ensures st == old(st)[Ptr(Edge, i) := EdgeCell(NibbleStr(n.data.bytes, 0, n.length), n.next)]
    {
      hide Ties, PoolsValid, Snapshot;
      ghost var P, v := Snapshot(), View(st, owner, keySize);
      var m := ReadEdge(i);
      TiesMoveIn(P, v, i, n);
      var s := m.data.stringIdx;
      WriteAndRemove(i, n, s);
      st := InlineView(v, i, n).st;
      owner := owner - {s};
    }

    /** Bring a long edge's first `oldIdx` nibbles inline and give its string back. */
    method MoveStrIn(p: Ptr, oldIdx: nat, next: Ptr)
      requires Valid() && p in st && p.kind == Edge && st[p].EdgeCell?
      requires 0 < oldIdx <= SMALL_STR_SIZE < |st[p].str|
      modifies this`st, this`owner, edges, strings
      ensures Valid()
      ensures st == old(st)[p := EdgeCell(old(st)[p].str[..oldIdx], next)]
    {
      hide Ties, PoolsValid, Snapshot;
      var oldKey, length, _ := FetchEdge(p);
      var text := InlineText(oldKey, if oldIdx <= |oldKey| then oldIdx else |oldKey|);
      MovedText(oldKey, text, oldIdx, length);
      IsLong(p);
      ReplaceLong(p.idx, EdgeNode(Inline(text), oldIdx, next));
    }

    lemma IsLong(p: Ptr)
      requires Valid() && p in st && p.kind == Edge && st[p].EdgeCell?
      ensures p.idx in edges.live && edges.live[p.idx].length == |st[p].str|
    {
      hide Ties, FreeList.Valid;
      TiesFetch(Snapshot(), View(st, owner, keySize), p);
    }

    /** Shorten an edge to `oldIdx` nibbles and give it a new target. */
    method TruncateEdge(p: Ptr, oldIdx: nat, next: Ptr)
      requires Valid() && p in st && p.kind == Edge && st[p].EdgeCell? && 0 < oldIdx <= |st[p].str|
      modifies this`st, this`owner, edges, strings
      ensures Valid()
      ensures st == old(st)[p := EdgeCell(old(st)[p].str[..oldIdx], next)]
    {
      hide Ties, PoolsValid, Snapshot;
      var _, length, _ := FetchEdge(p);
      if length > SMALL_STR_SIZE && oldIdx <= SMALL_STR_SIZE {
        MoveStrIn(p, oldIdx, next);
      } else {
        RewriteEdge(p, oldIdx, next);
      }
    }

    method DropShort(p: Ptr)
      requires Valid() && p in st && p.kind == Edge && p.idx in edges.live && edges.live[p.idx].length <= SMALL_STR_SIZE
      modifies this`st, edges
      ensures Valid()
      ensures st == old(st) - {p}
    {
      hide Ties, FreeList.Valid;
      ghost var P, v := Snapshot(), View(st, owner, keySize);
      TiesDropShort(P, v, p.idx);
      edges.Remove(p.idx);
      st := st - {p};
    }

    /** Give back an edge slot and a string slot. */
    method RemoveBoth(i: nat, s: nat)
      requires PoolsValid() && i in Snapshot().edges && s in Snapshot().strings
      modifies edges, strings
      ensures PoolsValid()
      ensures Snapshot() == old(Snapshot().(edges := Snapshot().edges - {i}, strings := Snapshot().strings - {s}))
    {
      hide FreeList.Valid;
      strings.Remove(s);
      edges.Remove(i);
    }

    method DropLong(p: Ptr)
      requires Valid() && p in st && p.kind == Edge && p.idx in edges.live && edges.live[p.idx].length > SMALL_STR_SIZE
      modifies this`st, this`owner, edges, strings
      ensures Valid()
      ensures st == old(st) - {p}
    {
      hide Ties, PoolsValid, Snapshot;
      ghost var P, v := Snapshot(), View(st, owner, keySize);
      var m := ReadEdge(p.idx);
      TiesDropLong(P, v, p.idx);
      var s := m.data.stringIdx;
      RemoveBoth(p.idx, s);
      st := st - {p};
      owner := owner - {s};
    }

    /** Give back an edge, and its string if it has one. */
    method RemoveEdge(p: Ptr)
      requires Valid() && p in st && p.kind == Edge && st[p].EdgeCell?
      modifies this`st, this`owner, edges, strings
      ensures Valid()
      ensures st == old(st) - {p}
    {
      hide Ties, PoolsValid, Snapshot;
      var _, length, _ := FetchEdge(p);
      IsLong(p);
      if length > SMALL_STR_SIZE {
        DropLong(p);
      } else {
        DropShort(p);
      }
    }

    // The four branch pools, one pair at a time.

    ghost predicate IsListed(pool: FreeList<ListedBranch>, k: Kind) {
      (k == Branch4 && pool == branches4) || (k == Branch8 && pool == branches8)
    }

    ghost predicate IsIndexed(pool: FreeList<IndexedBranch>, k: Kind) {
      (k == Branch16 && pool == branches16) || (k == BranchFull && pool == branchesFull)
    }

    method NewListed(pool: FreeList<ListedBranch>, k: Kind, b: ListedBranch, ghost ents: map<Sym, Ptr>) returns (p: Ptr)
      requires Valid() && IsListed(pool, k) && Lists(b, if k == Branch4 then 4 else 8, ents)
      modifies this`st, pool
      ensures Valid()
      ensures p.kind == k && p !in old(st) && st == old(st)[p := BranchCell(ents)]
    {
      hide Ties, FreeList.Valid, Lists;
      ghost var P, v := Snapshot(), View(st, owner, keySize);
      var idx := pool.Insert(b);
      ListedSlot(P, v, k, idx);
      TiesListed(P, v, k, idx, b, ents);
      p := Ptr(k, idx);
      st := st[p := BranchCell(ents)];
    }

    method SetListed(pool: FreeList<ListedBranch>, p: Ptr, b: ListedBranch, ghost ents: map<Sym, Ptr>)
      requires Valid() && IsListed(pool, p.kind) && p in st && Lists(b, if p.kind == Branch4 then 4 else 8, ents)
      modifies this`st, pool
      ensures Valid()
      ensures st == old(st)[p := BranchCell(ents)]
    {
      hide Ties, FreeList.Valid, Lists;
      ghost var P, v := Snapshot(), View(st, owner, keySize);
      ListedSlot(P, v, p.kind, p.idx);
      TiesListed(P, v, p.kind, p.idx, b, ents);
      pool.Write(p.idx, b);
      st := st[p := BranchCell(ents)];
    }

    method ReadListed(pool: FreeList<ListedBranch>, p: Ptr) returns (b: ListedBranch)
      requires Valid() && IsListed(pool, p.kind) && p in st
      ensures st[p].BranchCell? && Lists(b, if p.kind == Branch4 then 4 else 8, st[p].ents)
    {
      hide Ties, FreeList.Valid, Lists;
      TiesBranch(Snapshot(), View(st, owner, keySize), p);
      b := pool.Read(p.idx);
    }

    method NewIndexed(pool: FreeList<IndexedBranch>, k: Kind, b: IndexedBranch, ghost ents: map<Sym, Ptr>) returns (p: Ptr)
      requires Valid() && IsIndexed(pool, k) && Indexes(b, if k == Branch16 then 16 else 17, ents)
      modifies this`st, pool
      ensures Valid()
      ensures p.kind == k && p !in old(st) && st == old(st)[p := BranchCell(ents)]
    {
      hide Ties, FreeList.Valid, Indexes;
      ghost var P, v := Snapshot(), View(st, owner, keySize);
      var idx := pool.Insert(b);
      IndexedSlot(P, v, k, idx);
      TiesIndexed(P, v, k, idx, b, ents);
      p := Ptr(k, idx);
      st := st[p := BranchCell(ents)];
    }

    method SetIndexed(pool: FreeList<IndexedBranch>, p: Ptr, b: IndexedBranch, ghost ents: map<Sym, Ptr>)
      requires Valid() && IsIndexed(pool, p.kind) && p in st && Indexes(b, if p.kind == Branch16 then 16 else 17, ents)
      modifies this`st, pool
      ensures Valid()
      ensures st == old(st)[p := BranchCell(ents)]
    {
      hide Ties, FreeList.Valid, Indexes;
      ghost var P, v := Snapshot(), View(st, owner, keySize);
      IndexedSlot(P, v, p.kind, p.idx);
      TiesIndexed(P, v, p.kind, p.idx, b, ents);
      pool.Write(p.idx, b);
      st := st[p := BranchCell(ents)];
    }

    method ReadIndexed(pool: FreeList<IndexedBranch>, p: Ptr) returns (b: IndexedBranch)
      requires Valid() && IsIndexed(pool, p.kind) && p in st
      ensures st[p].BranchCell? && Indexes(b, if p.kind == Branch16 then 16 else 17, st[p].ents)
    {
      hide Ties, FreeList.Valid, Indexes;
      TiesBranch(Snapshot(), View(st, owner, keySize), p);
      b := pool.Read(p.idx);
    }

    /** A new, empty branch of 4: the only kind a tree starts a branch with. */
    method CreateBranch4() returns (p: Ptr)
      requires Valid()
      modifies this`st, branches4
      ensures Valid()
      ensures p.kind == Branch4 && p !in old(st) && st == old(st)[p := BranchCell(map[])]
    {
      hide Ties, PoolsValid, Snapshot;
      p := NewListed(branches4, Branch4, EmptyListed(4), map[]);
    }

    /** Fill slot `i` of a branch of 4 whose first `i` slots are in use. */
    method FillBranch4(p: Ptr, i: nat, v: Sym, q: Ptr)
      requires Valid() && p in st && p.kind == Branch4 && st[p].BranchCell? && q.kind != None
      requires i == |st[p].ents| < 4 && v !in st[p].ents
      modifies this`st, branches4
      ensures Valid()
      ensures st == old(st)[p := BranchCell(old(st)[p].ents[v := q])]
    {
      hide Ties, PoolsValid, Snapshot;
      var b := ReadListed(branches4, p);
      ListsPut(b, 4, st[p].ents, i, v, q);
      SetListed(branches4, p, Put(b, i, v, q), st[p].ents[v := q]);
    }

    /** Set the entry for `v`, or move the whole branch to a new branch of 8. */
    method InsertIntoBranch4OrGrow(p: Ptr, v: Sym, q: Ptr) returns (grown: Ptr)
      requires Valid() && p in st && p.kind == Branch4 && st[p].BranchCell? && q.kind != None
      modifies this`st, branches4, branches8
      ensures Valid()
      ensures grown.kind == None <==> Fits(Branch4, old(st)[p].ents, v)
      ensures grown.kind == None ==> st == old(st)[p := BranchCell(old(st)[p].ents[v := q])]
      ensures grown.kind != None ==> grown.kind == Branch8 && grown !in old(st)
      ensures grown.kind != None ==> st == old(st)[grown := BranchCell(old(st)[p].ents[v := q])]
    {
      hide Ties, PoolsValid, Snapshot;
      ghost var ents := st[p].ents;
      var b := ReadListed(branches4, p);
      var i, full := FindPlace(b, 4, v, ents);
      if !full {
        ListsPut(b, 4, ents, i, v, q);
        SetListed(branches4, p, Put(b, i, v, q), ents[v := q]);
        return NIL;
      }
      var c := GrowListed(b, v, q, ents);
      grown := NewListed(branches8, Branch8, c, ents[v := q]);
    }

    /** Set the entry for `v`, or move the whole branch to a branch of 16, or to a full branch
        when an immediate is among the entries. */
    method InsertIntoBranch8OrGrow(p: Ptr, v: Sym, q: Ptr) returns (grown: Ptr)
      requires Valid() && p in st && p.kind == Branch8 && st[p].BranchCell? && q.kind != None
      modifies this`st, branches8, branches16, branchesFull
      ensures Valid()
      ensures grown.kind == None <==> Fits(Branch8, old(st)[p].ents, v)
      ensures grown.kind == None ==> st == old(st)[p := BranchCell(old(st)[p].ents[v := q])]
      ensures grown.kind != None ==> grown !in old(st) && grown.kind == GrownKind(Branch8, old(st)[p].ents, v)
      ensures grown.kind != None ==> st == old(st)[grown := BranchCell(old(st)[p].ents[v := q])]
    {
      hide Ties, PoolsValid, Snapshot, Indexes;
      ghost var ents := st[p].ents;
      var b := ReadListed(branches8, p);
      var i, full := FindPlace(b, 8, v, ents);
      if !full {
        ListsPut(b, 8, ents, i, v, q);
        SetListed(branches8, p, Put(b, i, v, q), ents[v := q]);
        return NIL;
      }
      var seenImmediate := SeenImmediate(b, v, ents);
      if seenImmediate {
        var c := Spread(b, 17, v, q, ents);
        grown := NewIndexed(branchesFull, BranchFull, c, ents[v := q]);
      } else {
        var c := Spread(b, 16, v, q, ents);
        grown := NewIndexed(branches16, Branch16, c, ents[v := q]);
      }
    }

    /** Set the entry for a nibble, or move the whole branch to a full branch for an immediate. */
    method InsertIntoBranch16OrGrow(p: Ptr, v: Sym, q: Ptr) returns (grown: Ptr)
      requires Valid() && p in st && p.kind == Branch16 && st[p].BranchCell? && q.kind != None
      modifies this`st, branches16, branchesFull
      ensures Valid()
      ensures grown.kind == None <==> Fits(Branch16, old(st)[p].ents, v)
      ensures grown.kind == None ==> st == old(st)[p := BranchCell(old(st)[p].ents[v := q])]
      ensures grown.kind != None ==> grown.kind == BranchFull && grown !in old(st)
      ensures grown.kind != None ==> st == old(st)[grown := BranchCell(old(st)[p].ents[v := q])]
    {
      hide Ties, PoolsValid, Snapshot;
      ghost var ents := st[p].ents;
      var b := ReadIndexed(branches16, p);
      if v == IMMEDIATE {
        grown := NewIndexed(branchesFull, BranchFull, IndexedBranch(b.entries + [q]), ents[v := q]);
      } else {
        SetIndexed(branches16, p, IndexedBranch(b.entries[v := q]), ents[v := q]);
        grown := NIL;
      }
    }

    method InsertIntoBranchFull(p: Ptr, v: Sym, q: Ptr)
      requires Valid() && p in st && p.kind == BranchFull && st[p].BranchCell? && q.kind != None
      modifies this`st, branchesFull
      ensures Valid()
      ensures st == old(st)[p := BranchCell(old(st)[p].ents[v := q])]
    {
      hide Ties, PoolsValid, Snapshot;
      var b := ReadIndexed(branchesFull, p);
      SetIndexed(branchesFull, p, IndexedBranch(b.entries[v := q]), st[p].ents[v := q]);
    }

    method DropBranch4(p: Ptr)
      requires Valid() && p.kind == Branch4 && p in st
      modifies this`st, branches4
      ensures Valid()
      ensures st == old(st) - {p}
    {
      hide Ties, FreeList.Valid, Lists;
      ghost var P, v := Snapshot(), View(st, owner, keySize);
      ListedSlot(P, v, Branch4, p.idx);
      TiesListedDrop(P, v, Branch4, p.idx);
      branches4.Remove(p.idx);
      st := st - {p};
    }

    method DropBranch8(p: Ptr)
      requires Valid() && p.kind == Branch8 && p in st
      modifies this`st, branches8
      ensures Valid()
      ensures st == old(st) - {p}
    {
      hide Ties, FreeList.Valid, Lists;
      ghost var P, v := Snapshot(), View(st, owner, keySize);
      ListedSlot(P, v, Branch8, p.idx);
      TiesListedDrop(P, v, Branch8, p.idx);
      branches8.Remove(p.idx);
      st := st - {p};
    }

    method DropBranch16(p: Ptr)
      requires Valid() && p.kind == Branch16 && p in st
      modifies this`st, branches16
      ensures Valid()
      ensures st == old(st) - {p}
    {
      hide Ties, FreeList.Valid, Indexes;
      ghost var P, v := Snapshot(), View(st, owner, keySize);
      IndexedSlot(P, v, Branch16, p.idx);
      TiesIndexedDrop(P, v, Branch16, p.idx);
      branches16.Remove(p.idx);
      st := st - {p};
    }

    method DropBranchFull(p: Ptr)
      requires Valid() && p.kind == BranchFull && p in st
      modifies this`st, branchesFull
      ensures Valid()
      ensures st == old(st) - {p}
    {
      hide Ties, FreeList.Valid, Indexes;
      ghost var P, v := Snapshot(), View(st, owner, keySize);
      IndexedSlot(P, v, BranchFull, p.idx);
      TiesIndexedDrop(P, v, BranchFull, p.idx);
      branchesFull.Remove(p.idx);
      st := st - {p};
    }

    /** Give back the slot of a branch. */
    method RemoveBranch(p: Ptr)
      requires Valid() && p in st && p.kind.IsBranch()
      modifies this`st, branches4, branches8, branches16, branchesFull
      ensures Valid()
      ensures st == old(st) - {p}
    {
      hide Ties, PoolsValid, Snapshot;
      match p.kind {
        case Branch4 => DropBranch4(p);
        case Branch8 => DropBranch8(p);
        case Branch16 => DropBranch16(p);
        case BranchFull => DropBranchFull(p);
      }
    }

    /** Set the entry of a branch for `v`. A branch without room moves to a wider one, whose
        pointer is returned, and gives its slot back. */
    method InsertIntoBranchOrGrow(p: Ptr, v: Sym, q: Ptr) returns (grown: Ptr)
      requires Valid() && p in st && p.kind.IsBranch() && st[p].BranchCell? && q.kind != None
      modifies this`st, branches4, branches8, branches16, branchesFull
      ensures Valid()
      ensures grown.kind == None <==> Fits(p.kind, old(st)[p].ents, v)
      ensures grown.kind == None ==> st == old(st)[p := BranchCell(old(st)[p].ents[v := q])]
      ensures grown.kind != None ==> grown !in old(st) && grown.kind == GrownKind(p.kind, old(st)[p].ents, v)
      ensures grown.kind != None ==> st == (old(st) - {p})[grown := BranchCell(old(st)[p].ents[v := q])]
    {
      hide Ties, PoolsValid, Snapshot;
      match p.kind {
        case Branch4 => grown := InsertIntoBranch4OrGrow(p, v, q);
        case Branch8 => grown := InsertIntoBranch8OrGrow(p, v, q);
        case Branch16 => grown := InsertIntoBranch16OrGrow(p, v, q);
        case BranchFull =>
          InsertIntoBranchFull(p, v, q);
          grown := NIL;
      }
      if grown.kind != None {
        RemoveBranch(p);
      }
    }

    /** The entry of a branch for symbol `v`, or none. */
    method GetBranch(p: Ptr, v: Sym) returns (q: Ptr)
      requires Valid() && p in st && p.kind.IsBranch() && st[p].BranchCell?
      ensures v in st[p].ents ==> q == st[p].ents[v]
      ensures v !in st[p].ents ==> q.kind == None
    {
      hide Ties, PoolsValid, Snapshot, Lists, Indexes;
      match p.kind {
        case Branch4 =>
          var b := ReadListed(branches4, p);
          q := GetListed(b, 4, v, st[p].ents);
        case Branch8 =>
          var b := ReadListed(branches8, p);
          q := GetListed(b, 8, v, st[p].ents);
        case Branch16 =>
          var b := ReadIndexed(branches16, p);
          q := GetIndexed(b, 16, v, st[p].ents);
        case BranchFull =>
          var b := ReadIndexed(branchesFull, p);
          q := GetIndexed(b, 17, v, st[p].ents);
      }
    }

    /** A slot is in use exactly when it is not on the free stack, and the free stack holds no slot
        twice. */
    ghost predicate Accounted<T>(pool: FreeList<T>, k: Kind)
      reads this, pool
    {
      && pool.free <= |pool.indices| && Distinct(pool.indices[..pool.free])
      && (forall i: nat :: Ptr(k, i) in st ==> i < pool.cap)
      && (forall i: nat :: i < pool.cap ==> (Ptr(k, i) in st <==> i !in pool.indices[..pool.free]))
    }

    lemma PoolAccounted<T>(pool: FreeList<T>, k: Kind)
      requires pool.Valid() && forall i :: i in pool.live <==> Ptr(k, i) in st
      ensures Accounted(pool, k)
    {
      pool.Partition();
      forall i: nat | i < pool.cap ensures Ptr(k, i) in st <==> i !in pool.indices[..pool.free] {
        assert i in Below(pool.cap);
      }
    }

    /** The cells of the store and the free stacks of the pools partition the pools. */
    lemma AllAccounted()
      requires Valid()
      ensures Accounted(leaves, Leaf) && Accounted(edges, Edge)
      ensures Accounted(branches4, Branch4) && Accounted(branches8, Branch8)
      ensures Accounted(branches16, Branch16) && Accounted(branchesFull, BranchFull)
    {
      hide Ties, FreeList.Valid, Accounted;
      ghost var P, v := Snapshot(), View(st, owner, keySize);
      forall i: nat ensures i in leaves.live <==> Ptr(Leaf, i) in st { LeafSlot(P, v, i); }
      forall i: nat ensures i in edges.live <==> Ptr(Edge, i) in st { EdgeSlot(P, v, i); }
      forall i: nat ensures i in branches4.live <==> Ptr(Branch4, i) in st { ListedSlot(P, v, Branch4, i); }
      forall i: nat ensures i in branches8.live <==> Ptr(Branch8, i) in st { ListedSlot(P, v, Branch8, i); }
      forall i: nat ensures i in branches16.live <==> Ptr(Branch16, i) in st { IndexedSlot(P, v, Branch16, i); }
      forall i: nat ensures i in branchesFull.live <==> Ptr(BranchFull, i) in st { IndexedSlot(P, v, BranchFull, i); }
      PoolAccounted(leaves, Leaf);
      PoolAccounted(edges, Edge);
      PoolAccounted(branches4, Branch4);
      PoolAccounted(branches8, Branch8);
      PoolAccounted(branches16, Branch16);
      PoolAccounted(branchesFull, BranchFull);
    }

    /** A string slot is in use exactly when it is off the free stack, and then exactly one live
        edge, a long one, keeps its text there. */
    lemma StringsAccounted(s: nat) returns (i: nat)
      requires Valid() && s < strings.cap && s !in strings.indices[..strings.free]
      ensures i in edges.live && edges.live[i].length > SMALL_STR_SIZE && edges.live[i].data == Pooled(s)
      ensures forall j :: j in edges.live && edges.live[j].length > SMALL_STR_SIZE && edges.live[j].data == Pooled(s) ==> j == i
    {
      hide LeavesOk, ListedOk, IndexedOk;
      strings.Partition();
      assert s in Below(strings.cap);
      i := owner[s];
      forall j | j in edges.live && edges.live[j].length > SMALL_STR_SIZE && edges.live[j].data == Pooled(s) ensures j == i {
        assert EdgeOk(j, edges.live[j], strings.live, View(st, owner, keySize), st[Ptr(Edge, j)]);
      }
    }
  }

  /** Scan the symbols of a listed branch; a free slot whose stale symbol matches gives none. */
  method GetListed(b: ListedBranch, n: nat, v: Sym, ghost ents: map<Sym, Ptr>) returns (q: Ptr)
    requires Lists(b, n, ents)
    ensures v in ents ==> q == ents[v]
    ensures v !in ents ==> q.kind == None
  {
    ListsFind(b, n, ents, v);
    for i := 0 to n
      invariant forall j :: 0 <= j < i ==> b.values[j] != v
    {
      if b.values[i] == v {
        return b.entries[i];
      }
    }
    q := NIL;
  }

  /** A branch of 16 has no place for an immediate. */
  method GetIndexed(b: IndexedBranch, n: nat, v: Sym, ghost ents: map<Sym, Ptr>) returns (q: Ptr)
    requires Indexes(b, n, ents) && 16 <= n
    ensures v in ents ==> q == ents[v]
    ensures v !in ents ==> q.kind == None
  {
    if v == IMMEDIATE && n == 16 {
      return NIL;
    }
    q := b.entries[v];
  }

  /** The first slot that is free or already holds `v`; `full` when there is none. */
  method FindPlace(b: ListedBranch, n: nat, v: Sym, ghost ents: map<Sym, Ptr>) returns (i: nat, full: bool)
    requires Lists(b, n, ents)
    ensures full <==> v !in ents && |ents| == n
    ensures !full ==> i < n && if v in ents then i < |ents| && b.values[i] == v else i == |ents|
  {
    ListsFind(b, n, ents, v);
    i := 0;
    while i < n
      invariant 0 <= i <= |ents|
      invariant forall j :: 0 <= j < i ==> b.values[j] != v
    {
      if b.entries[i].kind == None || b.values[i] == v {
        return i, false;
      }
      i := i + 1;
    }
    full := true;
  }

  /** A zeroed branch of 8 that starts with the four entries of `b`, and then the new one. */
  method GrowListed(b: ListedBranch, v: Sym, q: Ptr, ghost ents: map<Sym, Ptr>) returns (c: ListedBranch)
    requires Lists(b, 4, ents) && |ents| == 4 && v !in ents && q.kind != None
    ensures Lists(c, 8, ents[v := q])
  {
    c := EmptyListed(8);
    for i := 0 to 4
      invariant |c.values| == |c.entries| == 8
      invariant forall j :: 0 <= j < i ==> c.values[j] == b.values[j] && c.entries[j] == b.entries[j]
      invariant forall j :: 4 <= j < 8 ==> c.entries[j].kind == None
    {
      c := Put(c, i, b.values[i], b.entries[i]);
    }
    c := Put(c, 4, v, q);
    ListsGrow(b, ents, c, v, q);
  }

  method SeenImmediate(b: ListedBranch, v: Sym, ghost ents: map<Sym, Ptr>) returns (seen: bool)
    requires Lists(b, 8, ents) && |ents| == 8
    ensures seen <==> v == IMMEDIATE || IMMEDIATE in ents
  {
    ListsFind(b, 8, ents, IMMEDIATE);
    seen := v == IMMEDIATE;
    for i := 0 to 8
      invariant seen <==> v == IMMEDIATE || exists j :: 0 <= j < i && b.values[j] == IMMEDIATE
    {
      seen := seen || b.values[i] == IMMEDIATE;
    }
  }

  /** A zeroed indexed branch with the entries of `b`, and `q` under `v`. */
  method Spread(b: ListedBranch, n: nat, v: Sym, q: Ptr, ghost ents: map<Sym, Ptr>) returns (c: IndexedBranch)
    requires Lists(b, 8, ents) && |ents| == 8 && q.kind != None && (n == 16 || n == 17)
    requires n == 16 ==> v != IMMEDIATE && IMMEDIATE !in ents
    ensures Indexes(c, n, ents[v := q])
  {
    var entries := EmptyIndexed(n).entries;
    SpreadSymbols(b, n, ents);
    for i := 0 to 8
      invariant |entries| == n
      invariant forall j :: 0 <= j < i ==> entries[b.values[j]] == b.entries[j]
      invariant forall x: Sym :: x < n && entries[x].kind != None ==> x in ents
    {
      entries := entries[b.values[i] := b.entries[i]];
    }
    forall x | x in ents ensures x < n && entries[x] == ents[x] {
      ListsFind(b, 8, ents, x);
    }
    c := IndexedBranch(entries[v := q]);
  }

  lemma SpreadSymbols(b: ListedBranch, n: nat, ents: map<Sym, Ptr>)
    requires Lists(b, 8, ents) && |ents| == 8 && (n == 16 ==> IMMEDIATE !in ents) && (n == 16 || n == 17)
    ensures forall j :: 0 <= j < 8 ==> b.values[j] < n && b.values[j] in ents
    ensures forall j, k :: 0 <= j < k < 8 ==> b.values[j] != b.values[k]
  {
  }

  /** The first `n` bytes of `bytes` as edge data. The copy may be longer than the data field;
      the bytes past it land on the length and the target, which the caller sets next. */
  function InlineText(bytes: seq<Byte>, n: nat): (r: seq<Byte>)
    requires n <= |bytes|
    ensures |r| == EDGE_DATA_SIZE
    ensures forall i :: 0 <= i < n && i < EDGE_DATA_SIZE ==> r[i] == bytes[i]
  {
    seq<Byte>(EDGE_DATA_SIZE, i requires 0 <= i < EDGE_DATA_SIZE => if i < n then bytes[i] else 0)
  }

  lemma MovedText(bytes: seq<Byte>, text: seq<Byte>, oldIdx: nat, length: nat)
    requires 0 < oldIdx <= SMALL_STR_SIZE < length <= 2 * |bytes| && |text| == EDGE_DATA_SIZE
    requires forall i :: 0 <= i < oldIdx && i < EDGE_DATA_SIZE ==> text[i] == bytes[i]
    ensures NibbleStr(text, 0, oldIdx) == NibbleStr(bytes, 0, length)[..oldIdx]
  {
  }
}
