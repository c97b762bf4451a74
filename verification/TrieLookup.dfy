/** What a walk from the root finds, for every key, stored or not. */
module TrieLookup {
  import opened Trie
  import opened TrieInsert

  /** The outcome of a lookup. `PastKey` is a read outside the memory the key lies in. */
  datatype Lookup = Found(value: Value) | NotFound | PastKey

  /** `s` is stored, is a proper prefix of `key`, and is a prefix of no other stored key. */
  ghost predicate IsShadow(keys: set<Key>, key: Key, s: Key) {
    s in keys && s < key && forall k :: k in keys && s <= k ==> k == s
  }

  ghost predicate Shadowed(keys: set<Key>, key: Key) {
    exists s :: IsShadow(keys, key, s)
  }

  /** The nibbles with which stored keys go on after `key`. */
  ghost function Nexts(keys: set<Key>, key: Key): set<Sym> {
    set k | k in keys && key < k :: k[|key|] as Sym
  }

  /** So many stored keys go on after `key` that its branch has one entry a nibble, but `key` itself
      is not stored. */
  ghost predicate Crowded(keys: set<Key>, key: Key) {
    key !in keys && |Nexts(keys, key)| >= 9
  }

  /** The outcome of a lookup that ends within its key, in a tree that stands for `c`. */
  ghost predicate Settles(c: map<Key, Value>, key: Key, r: Lookup) {
    if key in c then r == Found(c[key])
    else
      match r
      case Found(v) => exists s :: IsShadow(c.Keys, key, s) && c[s] == v
      case PastKey => false
      case NotFound => !Shadowed(c.Keys, key) && !Crowded(c.Keys, key)
  }

  /** The exact outcome of looking up the first `n` nibbles of `buf` in a tree that stands for `c`. At a
      crowded key one more nibble is read from the memory behind the key, and the lookup goes on as
      one for the longer key; behind the last nibble there is nothing to read. */
  ghost predicate Answers(c: map<Key, Value>, buf: Key, n: nat, r: Lookup)
    requires n <= |buf|
    decreases |buf| - n
  {
    if !Crowded(c.Keys, buf[..n]) then Settles(c, buf[..n], r)
    else if n == |buf| then r == PastKey
    else Answers(c, buf, n + 1, r)
  }

  /** What a plain map would say. */
  ghost function MapLookup(c: map<Key, Value>, key: Key): Lookup {
    if key in c then Found(c[key]) else NotFound
  }

  /** Every prefix of `buf` from length `n` to length `m` is crowded. */
  ghost predicate CrowdedUpTo(keys: set<Key>, buf: Key, n: nat, m: nat)
    requires m <= |buf|
  {
    forall j {:trigger Crowded(keys, buf[..j])} :: n <= j <= m ==> Crowded(keys, buf[..j])
  }

  /** All prefixes from the key on are crowded, up to one after which the buffer ends or a longer
      prefix of the buffer is stored. */
  ghost predicate Strays(keys: set<Key>, buf: Key, n: nat) {
    exists m {:trigger CrowdedUpTo(keys, buf, n, m)} ::
      n <= m <= |buf| && CrowdedUpTo(keys, buf, n, m) && (m == |buf| || buf[..m + 1] in keys)
  }

  /** A lookup agrees with the map exactly for stored keys, and for keys that neither run into a shorter
      stored key nor are led past their end, through crowded branches, to a longer stored key or out
      of the buffer. */
  lemma {:induction false} ExactWhen(c: map<Key, Value>, buf: Key, n: nat, r: Lookup)
    requires n <= |buf| && Answers(c, buf, n, r)
    ensures r == MapLookup(c, buf[..n])
            <==> buf[..n] in c || (!Shadowed(c.Keys, buf[..n]) && !Strays(c.Keys, buf, n))
  {
    hide Shadowed;
    if !Crowded(c.Keys, buf[..n]) {
      NotCrowdedStays(c.Keys, buf, n);
      SettlesExact(c, buf[..n], r);
    } else if n == |buf| {
      assert CrowdedUpTo(c.Keys, buf, n, n);
    } else {
      CrowdedNotShadowed(c.Keys, buf, n);
      LongerFound(c, buf, n, r);
    }
  }

  lemma SettlesExact(c: map<Key, Value>, key: Key, r: Lookup)
    requires Settles(c, key, r)
    ensures r == MapLookup(c, key) <==> key in c || !Shadowed(c.Keys, key)
  {
  }

  lemma NotCrowdedStays(keys: set<Key>, buf: Key, n: nat)
    requires n <= |buf| && !Crowded(keys, buf[..n])
    ensures !Strays(keys, buf, n)
  {
    hide Crowded;
    forall m | n <= m <= |buf| ensures !CrowdedUpTo(keys, buf, n, m) {
      assert !Crowded(keys, buf[..n]);
    }
  }

  /** A key whose prefix is crowded has no shadow. */
  lemma CrowdedNotShadowed(keys: set<Key>, buf: Key, n: nat)
    requires n <= |buf| && Crowded(keys, buf[..n])
    ensures !Shadowed(keys, buf[..n])
    ensures n < |buf| ==> !Shadowed(keys, buf[..n + 1])
  {
    var x :| x in Nexts(keys, buf[..n]);
    var k :| k in keys && buf[..n] < k && k[n] as Sym == x;
    forall s: Key, m: nat | n <= m <= n + 1 && m <= |buf| ensures !IsShadow(keys, buf[..m], s) {
      assert s < buf[..m] ==> s <= buf[..n] && s <= k && s != k;
    }
  }

  /** The outcome past a crowded key is a value exactly when the reading on leads to a stored key. */
  lemma {:induction false} LongerFound(c: map<Key, Value>, buf: Key, n: nat, r: Lookup)
    requires n < |buf| && Crowded(c.Keys, buf[..n]) && Answers(c, buf, n + 1, r)
    ensures r != NotFound <==> Strays(c.Keys, buf, n)
    decreases |buf| - n
  {
    hide Crowded, Shadowed;
    var keys, m := c.Keys, n + 1;
    CrowdedNotShadowed(keys, buf, n);
    if Crowded(keys, buf[..m]) {
      CrowdedNotStored(keys, buf[..m]);
      if m < |buf| {
        LongerFound(c, buf, m, r);
      } else {
        assert CrowdedUpTo(keys, buf, m, m);
      }
      StraysOn(keys, buf, n);
    } else {
      SettlesExact(c, buf[..m], r);
      forall j | n < j <= |buf| ensures !CrowdedUpTo(keys, buf, n, j) {
        assert !Crowded(keys, buf[..m]);
      }
      assert CrowdedUpTo(keys, buf, n, n);
    }
  }

  lemma CrowdedNotStored(keys: set<Key>, key: Key)
    requires Crowded(keys, key)
    ensures key !in keys
  {
  }

  lemma StraysOn(keys: set<Key>, buf: Key, n: nat)
    requires n < |buf| && Crowded(keys, buf[..n]) && Crowded(keys, buf[..n + 1])
    ensures Strays(keys, buf, n) <==> Strays(keys, buf, n + 1)
  {
    CrowdedNotStored(keys, buf[..n + 1]);
    hide Crowded;
    if Strays(keys, buf, n + 1) {
      var m :| n + 1 <= m <= |buf| && CrowdedUpTo(keys, buf, n + 1, m) && (m == |buf| || buf[..m + 1] in keys);
      assert CrowdedUpTo(keys, buf, n, m);
    }
    if Strays(keys, buf, n) {
      var m :| n <= m <= |buf| && CrowdedUpTo(keys, buf, n, m) && (m == |buf| || buf[..m + 1] in keys);
      assert CrowdedUpTo(keys, buf, n + 1, m);
    }
  }

  /** With keys of whole bytes, two prefixes in a row must be crowded for a lookup inside its buffer to
      stray. */
  lemma BytesStray(keys: set<Key>, buf: Key, n: nat)
    requires n % 2 == 0 && n < |buf| && (forall k :: k in keys ==> |k| % 2 == 0) && Strays(keys, buf, n)
    ensures Crowded(keys, buf[..n]) && Crowded(keys, buf[..n + 1])
  {
    hide Crowded;
    var m :| n <= m <= |buf| && CrowdedUpTo(keys, buf, n, m) && (m == |buf| || buf[..m + 1] in keys);
    assert |buf[..n + 1]| % 2 == 1;
  }

  lemma ShadowNotCrowded(keys: set<Key>, key: Key)
    requires Shadowed(keys, key)
    ensures Nexts(keys, key) == {}
  {
    var s :| IsShadow(keys, key, s);
    assert forall k :: k in keys && key < k ==> s <= k && k != s;
  }

  /** The outcome is determined by the map and the buffer. */
  lemma {:induction false} AnswerUnique(c: map<Key, Value>, buf: Key, n: nat, r1: Lookup, r2: Lookup)
    requires n <= |buf| && Answers(c, buf, n, r1) && Answers(c, buf, n, r2)
    ensures r1 == r2
    decreases |buf| - n
  {
    hide Crowded;
    if !Crowded(c.Keys, buf[..n]) {
      SettlesUnique(c, buf[..n], r1, r2);
    } else if n < |buf| {
      AnswerUnique(c, buf, n + 1, r1, r2);
    }
  }

  lemma SettlesUnique(c: map<Key, Value>, key: Key, r1: Lookup, r2: Lookup)
    requires Settles(c, key, r1) && Settles(c, key, r2)
    ensures r1 == r2
  {
    if key !in c && Shadowed(c.Keys, key) {
      forall s1, s2 | IsShadow(c.Keys, key, s1) && IsShadow(c.Keys, key, s2) ensures s1 == s2 {
        if |s1| <= |s2| { assert s1 <= s2; } else { assert s2 <= s1; }
      }
    }
  }

  /** A lookup that settles was not at a crowded key. */
  lemma SettlesAnswers(c: map<Key, Value>, buf: Key, n: nat, r: Lookup)
    requires n <= |buf| && Settles(c, buf[..n], r)
    ensures Answers(c, buf, n, r)
  {
    if Shadowed(c.Keys, buf[..n]) {
      ShadowNotCrowded(c.Keys, buf[..n]);
    }
  }

  /** Reading on from one crowded prefix to the next. */
  lemma {:induction false} AnswersBack(c: map<Key, Value>, buf: Key, n: nat, m: nat, r: Lookup)
    requires n <= m <= |buf| && Answers(c, buf, m, r)
    requires forall j {:trigger Crowded(c.Keys, buf[..j])} :: n <= j < m ==> Crowded(c.Keys, buf[..j])
    ensures Answers(c, buf, n, r)
    decreases m - n
  {
    hide Crowded;
    if n < m {
      AnswersBack(c, buf, n + 1, m, r);
      assert Crowded(c.Keys, buf[..n]);
    }
  }

  /** A shorter stored key answers for a longer one that was never stored. */
  lemma ShadowExample(r: Lookup)
    requires Answers(map[[1, 2] := 7], [1, 2, 3, 4], 4, r)
    ensures r == Found(7)
  {
    var c: map<Key, Value> := map[[1, 2] := 7];
    var s: Key, key: Key := [1, 2], [1, 2, 3, 4];
    assert key[..4] == key;
    assert IsShadow(c.Keys, key, s);
    ShadowNotCrowded(c.Keys, key);
    assert Nexts(c.Keys, key) == {};
  }

  /** Nine keys that go on differently after `key`. */
  lemma NineNexts(keys: set<Key>, key: Key, tail: Key)
    requires key !in keys && forall n: Nib :: n < 9 ==> key + [n] + tail in keys
    ensures Crowded(keys, key)
  {
    var nine: set<Sym> := {0, 1, 2, 3, 4, 5, 6, 7, 8};
    forall v | v in nine ensures v in Nexts(keys, key) {
      var n: Nib := v;
      var k := key + [n] + tail;
      assert k in keys && key < k && k[|key|] == n;
    }
    SubsetSize(nine, Nexts(keys, key));
  }

  /** The byte 0x01 followed by each of nine bytes that differ in their high half. */
  ghost function SpreadKeys(v: Value): map<Key, Value> {
    map n: Nib | n < 9 :: [0, 1, n, 0] := v
  }

  /** A lookup of the byte 0x01 alone, never stored, reads on into the byte behind it. With 0xF0 there it
      meets no entry and with 0x20 an edge, so it finds nothing, like a map. */
  lemma ReadOnHarmless(high: Nib, r: Lookup)
    requires (high == 15 || high == 2) && Answers(SpreadKeys(7), [0, 1, high, 0], 2, r)
    ensures Crowded(SpreadKeys(7).Keys, [0, 1]) && r == NotFound
  {
    var c, buf: Key := SpreadKeys(7), [0, 1, high, 0];
    var key: Key, longer: Key := [0, 1], [0, 1, high];
    forall n: Nib | n < 9 ensures key + [n] + [0] in c.Keys {
      assert key + [n] + [0] == [0, 1, n, 0];
    }
    assert key !in c.Keys && longer !in c.Keys;
    NineNexts(c.Keys, key, [0]);
    assert buf[..2] == key && buf[..3] == longer;
    assert Nexts(c.Keys, longer) <= {0};
    SubsetSize(Nexts(c.Keys, longer), {0});
    CrowdedNotShadowed(c.Keys, buf, 2);
  }

  /** Those keys, and nine more under the first of them. */
  ghost function TwiceSpread(v: Value, w: Value): map<Key, Value> {
    SpreadKeys(v) + map n: Nib | n < 9 :: [0, 1, 0, n] := w
  }

  lemma TwiceSpreadCrowded(v: Value, w: Value)
    ensures var c := TwiceSpread(v, w);
            && Crowded(c.Keys, [0, 1]) && Crowded(c.Keys, [0, 1, 0])
            && [0, 1, 0, 5] in c && c[[0, 1, 0, 5]] == w
  {
    var c := TwiceSpread(v, w);
    var key: Key, longer: Key := [0, 1], [0, 1, 0];
    var rest := map n: Nib | n < 9 :: [0, 1, 0, n] := w;
    assert c.Keys == SpreadKeys(v).Keys + rest.Keys;
    assert [0, 1, 0, 5] in rest;
    forall n: Nib | n < 9 ensures key + [n] + [0] in c.Keys && longer + [n] + [] in c.Keys {
      assert key + [n] + [0] == [0, 1, n, 0] && longer + [n] + [] == [0, 1, 0, n];
    }
    assert key !in c.Keys && longer !in c.Keys;
    NineNexts(c.Keys, key, [0]);
    NineNexts(c.Keys, longer, []);
  }

  /** With two crowded prefixes the lookup of the byte 0x01, never stored, returns the value of the two
      bytes 0x01 0x05 that happen to lie in the buffer. */
  lemma ReadOnMisleads(r: Lookup)
    requires Answers(TwiceSpread(7, 8), [0, 1, 0, 5], 2, r)
    ensures [0, 1] !in TwiceSpread(7, 8) && r == Found(8)
  {
    hide Crowded, TwiceSpread;
    var c, buf: Key := TwiceSpread(7, 8), [0, 1, 0, 5];
    TwiceSpreadCrowded(7, 8);
    CrowdedNotStored(c.Keys, [0, 1]);
    assert buf[..2] == [0, 1] && buf[..3] == [0, 1, 0] && buf[..4] == buf;
    assert Answers(c, buf, 3, r) && Answers(c, buf, 4, r);
    StoredNotCrowded(c.Keys, buf);
  }

  lemma StoredNotCrowded(keys: set<Key>, key: Key)
    requires key in keys
    ensures !Crowded(keys, key)
  {
  }

  // ------------------------------------------------------------------
  // Below every cell there is a leaf
  // ------------------------------------------------------------------

  ghost function Below(t: Trie, p: Ptr): set<Ptr>
    requires t.pre.Keys == t.st.Keys && p in t.st
  {
    set q | q in t.st && t.pre[p] <= t.pre[q]
  }

  lemma LeafBelow(t: Trie, p: Ptr) returns (k: Key)
    requires t.Inv() && NormalForm(t.st) && p in t.st
    ensures k in t.home && t.home[k] in t.st && t.pre[p] <= t.pre[t.home[k]]
    decreases Below(t, p)
  {
    KindOfCell(t, p);
    assert Local(t.st, t.pre, p) && NodeOk(p, t.st[p]);
    if p.kind == Leaf {
      k := t.leafKey[p];
      return;
    }
    var q;
    if p.kind == Edge {
      q := t.st[p].next;
    } else {
      assert t.st[p].ents != map[];
      var v :| v in t.st[p].ents;
      q := t.st[p].ents[v];
      assert LocalEntry(t.st, t.pre, p, v, q);
    }
    assert |t.pre[p]| < |t.pre[q]| && t.pre[p] <= t.pre[q];
    assert p in Below(t, p) && p !in Below(t, q);
    assert Below(t, q) <= Below(t, p);
    k := LeafBelow(t, q);
  }

  /** The labels on the way to a cell other than a leaf are nibbles only. */
  lemma BelowKey(l: Label, k: Key, pre: Key)
    requires LabelsLeaf(l, k) && pre <= l
    ensures pre <= k
  {
    assert |l| > |k| ==> l[|k|] == IMMEDIATE;
  }

  // ------------------------------------------------------------------
  // One step of a lookup
  // ------------------------------------------------------------------

  /** The walk has consumed `i` nibbles of the key and stands at `p`. */
  ghost predicate GetAt(t: Trie, p: Ptr, key: Key, i: nat)
    requires t.pre.Keys == t.st.Keys
  {
    && p in t.st && i <= |key|
    && (t.pre[p] == key[..i] || (i == |key| && p.kind == Leaf && t.pre[p] == key + [IMMEDIATE]))
  }

  /** A stored key whose prefix the walk has consumed lies below the walk. */
  lemma KeyBelow(t: Trie, p: Ptr, key: Key, i: nat, k: Key)
    requires t.Inv() && GetAt(t, p, key, i) && p.kind != Leaf && k in t.home && key[..i] <= k
    ensures t.home[k] in t.st && t.pre[p] == key[..i] && t.pre[p] <= t.pre[t.home[k]] && t.home[k] != p
    ensures LabelsLeaf(t.pre[t.home[k]], k)
    ensures CoversCell(t.st[p], t.pre[p], t.pre[t.home[k]], t.home[k])
  {
    assert Covers(t.st, t.pre, p, t.home[k]);
  }

  /** No stored key that ends above the walk can be a shadow: there is a longer one below. */
  lemma NoShadowAbove(t: Trie, p: Ptr, key: Key, i: nat, s: Key)
    requires t.Inv() && NormalForm(t.st) && GetAt(t, p, key, i) && p.kind != Leaf
    requires IsShadow(t.home.Keys, key, s)
    ensures |s| >= i && key[..i] <= s
  {
    var k := LeafBelow(t, p);
    BelowKey(t.pre[t.home[k]], k, key[..i]);
    assert s <= key[..i] || key[..i] <= s;
    assert |s| < i ==> s <= k;
  }

  lemma LeafAnswers(t: Trie, p: Ptr, key: Key, i: nat)
    requires t.Inv() && GetAt(t, p, key, i) && p.kind == Leaf
    ensures t.st[p].LeafCell? && Settles(t.Content(), key, Found(t.st[p].val))
  {
    KindOfCell(t, p);
    var s := t.leafKey[p];
    assert (s + [IMMEDIATE])[|s|] == IMMEDIATE && (key + [IMMEDIATE])[|key|] == IMMEDIATE;
    if i == |key| {
      assert key[..i] == key;
      if |s| == |key| {
        assert s == (s + [IMMEDIATE])[..|s|] && key == (key + [IMMEDIATE])[..|s|];
      }
      assert s == key;
    } else {
      assert s == key[..i];
      forall k | k in t.home && s <= k ensures k == s {
        assert Covers(t.st, t.pre, p, t.home[k]);
      }
      assert t.Content().Keys == t.home.Keys;
      assert IsShadow(t.Content().Keys, key, s);
    }
  }

  lemma PrefixRest(key: Key, i: nat, str: Key)
    requires i <= |key|
    ensures key[..i] + str <= key <==> str <= key[i..]
  {
    if key[..i] + str <= key {
      assert str == (key[..i] + str)[i..];
      assert key[..i + |str|][i..] == key[i..][..|str|];
    }
  }

  lemma EdgeMisses(t: Trie, p: Ptr, key: Key, i: nat)
    requires t.Inv() && NormalForm(t.st) && GetAt(t, p, key, i) && p.kind == Edge && t.st[p].EdgeCell?
    requires !(t.st[p].str <= key[i..])
    ensures Settles(t.Content(), key, NotFound)
  {
    var str := t.st[p].str;
    PrefixRest(key, i, str);
    forall k | k in t.home && key[..i] <= k ensures key[..i] + str <= k {
      KeyBelow(t, p, key, i, k);
      BelowKey(t.pre[t.home[k]], k, key[..i] + str);
    }
    assert t.Content().Keys == t.home.Keys;
    forall s: Key ensures !IsShadow(t.home.Keys, key, s) {
      if IsShadow(t.home.Keys, key, s) { NoShadowAbove(t, p, key, i, s); }
    }
    NextsBelow(t.home.Keys, key, key[..i] + str);
  }

  /** When every longer key shares one more nibble, there is one way to go on. */
  lemma NextsBelow(keys: set<Key>, key: Key, m: Key)
    requires !(m <= key)
    requires forall k :: k in keys && key < k ==> m <= k
    ensures |Nexts(keys, key)| <= 1
  {
    if Nexts(keys, key) != {} {
      var x :| x in Nexts(keys, key);
      var k0 :| k0 in keys && key < k0 && k0[|key|] == x;
      assert |m| <= |key| ==> m <= key;
      assert Nexts(keys, key) <= {m[|key|] as Sym};
      assert Nexts(keys, key) == {x};
    }
  }

  /** The symbol a lookup reads at a branch. */
  ghost function NextSym(key: Key, i: nat): Sym {
    if i < |key| then key[i] else IMMEDIATE
  }

  lemma BranchMisses(t: Trie, p: Ptr, key: Key, i: nat)
    requires t.Inv() && NormalForm(t.st) && GetAt(t, p, key, i) && p.kind.IsBranch() && t.st[p].BranchCell?
    requires NextSym(key, i) !in t.st[p].ents && (i < |key| || p.kind != Branch16)
    ensures Settles(t.Content(), key, NotFound)
  {
    assert NodeOk(p, t.st[p]);
    assert t.Content().Keys == t.home.Keys;
    forall k | k in t.home && key[..i] < k ensures k[i] as Sym in t.st[p].ents {
      BranchGoesOn(t, p, key, i, k);
    }
    if key in t.home {
      BranchStops(t, p, key, i, key);
    }
    forall s: Key ensures !IsShadow(t.home.Keys, key, s) {
      if IsShadow(t.home.Keys, key, s) {
        NoShadowAbove(t, p, key, i, s);
        ShadowNotHere(t, p, key, i, s);
      }
    }
    FewNexts(t, p, key, i);
  }

  lemma BranchGoesOn(t: Trie, p: Ptr, key: Key, i: nat, k: Key)
    requires t.Inv() && GetAt(t, p, key, i) && p.kind.IsBranch() && t.st[p].BranchCell?
    requires k in t.home && key[..i] < k
    ensures k[i] as Sym in t.st[p].ents
  {
    KeyBelow(t, p, key, i, k);
  }

  /** A stored key that ends at the branch is its immediate. */
  lemma BranchStops(t: Trie, p: Ptr, key: Key, i: nat, k: Key)
    requires t.Inv() && GetAt(t, p, key, i) && p.kind.IsBranch() && t.st[p].BranchCell?
    requires k in t.home && k == key[..i]
    ensures IMMEDIATE in t.st[p].ents
  {
    KeyBelow(t, p, key, i, k);
  }

  /** A key that ends at a branch is no shadow: the branch has another entry. */
  lemma ShadowNotHere(t: Trie, p: Ptr, key: Key, i: nat, s: Key)
    requires t.Inv() && NormalForm(t.st) && GetAt(t, p, key, i) && p.kind.IsBranch() && t.st[p].BranchCell?
    requires IsShadow(t.home.Keys, key, s)
    ensures s != key[..i]
  {
    if s == key[..i] {
      BranchStops(t, p, key, i, s);
      assert NodeOk(p, t.st[p]);
      var v := OtherEntry(t.st[p].ents);
      var k := EntryKey(t, p, key, i, v);
    }
  }

  lemma OtherEntry(ents: map<Sym, Ptr>) returns (v: Sym)
    requires |ents| >= 2
    ensures v in ents && v != IMMEDIATE
  {
    assert |ents.Keys| == |ents|;
    if ents.Keys <= {IMMEDIATE} { SubsetSize(ents.Keys, {IMMEDIATE}); }
    v :| v in ents.Keys && v !in {IMMEDIATE};
  }

  lemma SubsetSize(a: set<Sym>, b: set<Sym>)
    requires a <= b
    ensures |a| <= |b|
  {
    assert |b - a| == |b| - |a|;
  }

  /** Below every nibble entry there is a stored key that takes it. */
  lemma EntryKey(t: Trie, p: Ptr, key: Key, i: nat, v: Sym) returns (k: Key)
    requires t.Inv() && NormalForm(t.st) && GetAt(t, p, key, i) && p.kind.IsBranch() && t.st[p].BranchCell?
    requires v in t.st[p].ents && v != IMMEDIATE
    ensures k in t.home && key[..i] < k && k[i] == v
  {
    assert Local(t.st, t.pre, p) && LocalEntry(t.st, t.pre, p, v, t.st[p].ents[v]);
    k := LeafBelow(t, t.st[p].ents[v]);
    var n: Nib := v;
    BelowKey(t.pre[t.home[k]], k, key[..i] + [n]);
    assert (key[..i] + [n])[i] == v;
  }

  lemma FewNexts(t: Trie, p: Ptr, key: Key, i: nat)
    requires t.Inv() && NormalForm(t.st) && GetAt(t, p, key, i) && p.kind.IsBranch() && t.st[p].BranchCell?
    requires NextSym(key, i) !in t.st[p].ents && (i < |key| || p.kind != Branch16)
    ensures |Nexts(t.home.Keys, key)| < 9
  {
    assert NodeOk(p, t.st[p]);
    forall k | k in t.home && key < k ensures i == |key| && k[i] as Sym in t.st[p].ents.Keys {
      BranchGoesOn(t, p, key, i, k);
    }
    assert Nexts(t.home.Keys, key) <= t.st[p].ents.Keys;
    SubsetSize(Nexts(t.home.Keys, key), t.st[p].ents.Keys);
    assert |t.st[p].ents.Keys| == |t.st[p].ents|;
  }

  /** At a branch of 16 the walk reads on past the end of the key. */
  lemma BranchReadsPast(t: Trie, p: Ptr, key: Key)
    requires t.Inv() && NormalForm(t.st) && GetAt(t, p, key, |key|) && p.kind == Branch16 && t.st[p].BranchCell?
    ensures Crowded(t.Content().Keys, key)
  {
    assert NodeOk(p, t.st[p]);
    assert key[..|key|] == key;
    if key in t.home {
      BranchStops(t, p, key, |key|, key);
    }
    forall v | v in t.st[p].ents.Keys ensures v in Nexts(t.home.Keys, key) {
      var k := EntryKey(t, p, key, |key|, v);
      assert k in t.home.Keys && key < k;
    }
    assert t.Content().Keys == t.home.Keys;
    SubsetSize(t.st[p].ents.Keys, Nexts(t.home.Keys, key));
    assert |t.st[p].ents.Keys| == |t.st[p].ents|;
  }

  /** The walk is the same for a longer key. */
  lemma GetLonger(t: Trie, p: Ptr, buf: Key, n: nat)
    requires t.pre.Keys == t.st.Keys && n < |buf| && GetAt(t, p, buf[..n], n) && p.kind != Leaf
    ensures GetAt(t, p, buf[..n + 1], n)
  {
    assert buf[..n + 1][..n] == buf[..n] == buf[..n][..n];
  }

  lemma EmptyAnswers(t: Trie, key: Key)
    requires t.Inv() && t.root.kind == None
    ensures Settles(t.Content(), key, NotFound)
  {
    assert t.home.Keys == {};
    assert t.Content().Keys == {};
    assert Nexts(t.Content().Keys, key) == {};
  }

  lemma EdgeGoesOn(t: Trie, p: Ptr, key: Key, i: nat)
    requires t.Inv() && GetAt(t, p, key, i) && p.kind == Edge && t.st[p].EdgeCell?
    requires t.st[p].str <= key[i..]
    ensures t.st[p].str != [] && i + |t.st[p].str| <= |key|
    ensures GetAt(t, t.st[p].next, key, i + |t.st[p].str|)
  {
    assert Local(t.st, t.pre, p);
    assert key[..i] + t.st[p].str == key[..i + |t.st[p].str|];
  }

  lemma BranchTakes(t: Trie, p: Ptr, key: Key, i: nat)
    requires t.Inv() && GetAt(t, p, key, i) && p.kind.IsBranch() && t.st[p].BranchCell?
    requires NextSym(key, i) in t.st[p].ents
    ensures GetAt(t, t.st[p].ents[NextSym(key, i)], key, if i < |key| then i + 1 else i)
    ensures i == |key| ==> t.st[p].ents[NextSym(key, i)].kind == Leaf
  {
    var v := NextSym(key, i);
    assert Local(t.st, t.pre, p) && LocalEntry(t.st, t.pre, p, v, t.st[p].ents[v]);
    assert i < |key| ==> key[..i] + [key[i]] == key[..i + 1];
    assert i == |key| ==> key[..i] == key;
  }

  // ------------------------------------------------------------------
  // Keys of one length
  // ------------------------------------------------------------------

  /** When all stored keys have the length of the key looked up, lookup is the map's. */
  lemma SameLengthExact(c: map<Key, Value>, key: Key, r: Lookup)
    requires Answers(c, key, |key|, r) && forall k :: k in c ==> |k| == |key|
    ensures r == MapLookup(c, key)
  {
    assert key[..|key|] == key;
    assert Nexts(c.Keys, key) == {};
  }

  /** And the tree has neither an immediate nor a full branch. */
  lemma SameLengthPlain(t: Trie, n: nat, p: Ptr)
    requires t.Inv() && NormalForm(t.st) && forall k :: k in t.home ==> |k| == n
    requires p in t.st && t.st[p].BranchCell?
    ensures IMMEDIATE !in t.st[p].ents && p.kind != BranchFull
  {
    KindOfCell(t, p);
    assert NodeOk(p, t.st[p]);
    if IMMEDIATE in t.st[p].ents {
      assert Local(t.st, t.pre, p);
      var q := t.st[p].ents[IMMEDIATE];
      assert LocalEntry(t.st, t.pre, p, IMMEDIATE, q);
      var s := t.leafKey[q];
      assert (s + [IMMEDIATE])[|s|] == IMMEDIATE;
      assert t.pre[q][|t.pre[q]| - 1] == IMMEDIATE;
      assert t.pre[p] == (t.pre[p] + [IMMEDIATE])[..|t.pre[p]|] && s == (s + [IMMEDIATE])[..|s|];
      var v := OtherEntry(t.st[p].ents);
      var k := EntryKey(t, p, s, |s|, v);
    }
  }

  // ------------------------------------------------------------------
  // Normal form, cell by cell
  // ------------------------------------------------------------------

  lemma {:induction false} SymsBelow(ents: map<Sym, Ptr>, n: nat)
    requires forall v :: v in ents ==> v < n
    ensures |ents| <= n
  {
    if n > 0 {
      var v: nat := n - 1;
      if v <= IMMEDIATE {
        var rest := ents - {v};
        SymsBelow(rest, v);
        assert |rest| == if v in ents then |ents| - 1 else |ents| by {
          assert rest.Keys == ents.Keys - {v};
        }
      } else {
        SymsBelow(ents, v);
      }
    } else {
      assert ents == map[];
    }
  }

  /** Edges are not empty and lead to a branch or a leaf; branches hold as many entries as their kind
      says; a branch of 16 has no immediate, a full branch has one, and immediates are leaves. */
  lemma CellNormal(t: Trie, p: Ptr)
    requires t.Inv() && NormalForm(t.st) && p in t.st
    ensures p.kind == Edge ==> t.st[p].EdgeCell? && t.st[p].str != [] && (t.st[p].next.kind.IsBranch() || t.st[p].next.kind == Leaf)
    ensures p.kind.IsBranch() ==> t.st[p].BranchCell?
    ensures p.kind == Branch4 ==> 2 <= |t.st[p].ents| <= 4
    ensures p.kind == Branch8 ==> 5 <= |t.st[p].ents| <= 8
    ensures p.kind == Branch16 ==> 9 <= |t.st[p].ents| <= 16 && IMMEDIATE !in t.st[p].ents
    ensures p.kind == BranchFull ==> 9 <= |t.st[p].ents| <= 17 && IMMEDIATE in t.st[p].ents
    ensures p.kind.IsBranch() ==> forall v :: v in t.st[p].ents ==>
              t.st[p].ents[v] in t.st && (v == IMMEDIATE ==> t.st[p].ents[v].kind == Leaf)
  {
    KindOfCell(t, p);
    assert NodeOk(p, t.st[p]) && Local(t.st, t.pre, p);
    if p.kind == Edge {
      KindOfCell(t, t.st[p].next);
    } else if p.kind.IsBranch() {
      SymsBelow(t.st[p].ents, if p.kind == Branch16 then 16 else 17);
      forall v | v in t.st[p].ents ensures t.st[p].ents[v] in t.st && (v == IMMEDIATE ==> t.st[p].ents[v].kind == Leaf) {
        assert LocalEntry(t.st, t.pre, p, v, t.st[p].ents[v]);
      }
    }
  }

  // ------------------------------------------------------------------
  // Ownership
  // ------------------------------------------------------------------

  /** Every live cell is held by exactly one slot. */
  lemma HeldOnce(t: Trie, p: Ptr) returns (s: Slot)
    requires t.Inv() && p in t.st
    ensures IsSlot(t, s) && At(t, s) == p
    ensures forall r :: IsSlot(t, r) && At(t, r) == p ==> r == s
  {
    if p == t.root {
      s := RootSlot;
    } else {
      s := HolderFrom(t, t.root, p);
    }
    KindOfCell(t, p);
    forall r | IsSlot(t, r) && At(t, r) == p ensures r == s {
      SlotHolds(t, r);
      SlotHolds(t, s);
      OneSlot(t, r, s);
    }
  }

  /** Walking down from any cell above `p` reaches the slot that holds `p`. */
  lemma HolderFrom(t: Trie, a: Ptr, p: Ptr) returns (s: Slot)
    requires t.Inv() && a in t.st && p in t.st && a != p && t.pre[a] <= t.pre[p]
    ensures IsSlot(t, s) && At(t, s) == p
    decreases |t.pre[p]| - |t.pre[a]|
  {
    assert Covers(t.st, t.pre, a, p) && Local(t.st, t.pre, a);
    var n;
    if t.st[a].EdgeCell? {
      n := t.st[a].next;
      s := NextSlot(a);
    } else {
      var v := t.pre[p][|t.pre[a]|];
      n := t.st[a].ents[v];
      s := EntSlot(a, v);
      assert LocalEntry(t.st, t.pre, a, v, n);
      assert t.pre[a] + [v] <= t.pre[p];
    }
    if n != p {
      s := HolderFrom(t, n, p);
    }
  }

  /** There are as many live leaves as stored keys. */
  lemma LeavesCountKeys(t: Trie)
    requires t.Inv()
    ensures (set p | p in t.st && p.kind == Leaf) == t.leafKey.Keys
    ensures |t.leafKey| == |t.home|
  {
    KeysOfBijection(t.home, t.leafKey);
  }

  lemma {:induction false} KeysOfBijection(f: map<Key, Ptr>, g: map<Ptr, Key>)
    requires forall k :: k in f ==> f[k] in g && g[f[k]] == k
    requires forall p :: p in g ==> g[p] in f && f[g[p]] == p
    ensures |g| == |f|
    decreases f
  {
    if f == map[] {
      assert g == map[];
    } else {
      var k :| k in f;
      KeysOfBijection(f - {k}, g - {f[k]});
      assert |f - {k}| == |f| - 1 by { assert (f - {k}).Keys == f.Keys - {k}; }
      assert |g - {f[k]}| == |g| - 1 by { assert (g - {f[k]}).Keys == g.Keys - {f[k]}; }
    }
  }
}
