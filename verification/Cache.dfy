/** The answer cache: a ring of pending entries in front of a radix tree of 32-byte digests. */
module Caches {
  import opened MachineInts
  import opened Trie
  import opened TrieLookup
  import opened Nibbles
  import opened RingBuffers
  import opened RadixTrees

  const DIGEST_LENGTH: nat := 32

  type Digest = s: seq<Byte> | |s| == DIGEST_LENGTH witness seq(DIGEST_LENGTH, _ => 0)

  datatype Entry = Entry(key: Digest, value: Value)

  /** The nibbles of a digest. */
  function KeyOf(d: Digest): (k: Key)
    ensures |k| == 2 * DIGEST_LENGTH == 64
  {
    NibbleStr(d, 0, 2 * DIGEST_LENGTH)
  }

  /** Store entries one after the other. */
  ghost function ApplyAll(c: map<Key, Value>, q: seq<Entry>): map<Key, Value>
    decreases |q|
  {
    if q == [] then c else ApplyAll(c[KeyOf(q[0].key) := q[0].value], q[1..])
  }

  /** A digest with no entry keeps what it had. */
  lemma {:induction false} NoEntryKeeps(c: map<Key, Value>, q: seq<Entry>, d: Digest)
    requires forall i :: 0 <= i < |q| ==> q[i].key != d
    ensures var r := ApplyAll(c, q);
            (KeyOf(d) in r <==> KeyOf(d) in c) && (KeyOf(d) in c ==> r[KeyOf(d)] == c[KeyOf(d)])
    decreases |q|
  {
    hide KeyOf;
    if q != [] {
      NoEntryKeeps(c[KeyOf(q[0].key) := q[0].value], q[1..], d);
      DigestsDiffer(q[0].key, d);
    }
  }

  /** The last entry for a digest is the one that stays. */
  lemma {:induction false} LastWins(c: map<Key, Value>, q: seq<Entry>, i: nat)
    requires i < |q| && forall j :: i < j < |q| ==> q[j].key != q[i].key
    ensures KeyOf(q[i].key) in ApplyAll(c, q) && ApplyAll(c, q)[KeyOf(q[i].key)] == q[i].value
    decreases |q|
  {
    hide KeyOf;
    var rest := c[KeyOf(q[0].key) := q[0].value];
    if i == 0 {
      NoEntryKeeps(rest, q[1..], q[0].key);
    } else {
      LastWins(rest, q[1..], i - 1);
    }
  }

  /** Different digests have different keys. */
  lemma DigestsDiffer(a: Digest, b: Digest)
    ensures KeyOf(a) == KeyOf(b) <==> a == b
  {
    NibblesDetermineBytes(a, b, DIGEST_LENGTH);
    assert a[..DIGEST_LENGTH] == a && b[..DIGEST_LENGTH] == b;
  }

  ghost predicate OneLength(c: map<Key, Value>) {
    forall k :: k in c ==> |k| == 2 * DIGEST_LENGTH
  }

  class Cache {
    const pending: RingBuffer<Entry>
    const tree: RadixTree

    ghost const Repr: set<object>

    ghost predicate Valid()
      reads Repr
    {
      && Repr == {pending as object, tree, tree.pools} + tree.pools.Footprint()
      && (pending as object) !in {tree as object, tree.pools} + tree.pools.Footprint()
      && pending.Valid() && tree.Valid() && tree.pools.keySize == DIGEST_LENGTH
      && OneLength(tree.Contents())
    }

    constructor (defaultCap: nat)
      requires 0 < defaultCap
      ensures Valid() && pending.Contents() == [] && tree.Contents() == map[]
      ensures fresh(Repr)
    {
      hide RadixTree.Valid, RadixTree.Contents, RingBuffer<Entry>.Valid, RingBuffer<Entry>.Contents;
      var ring := new RingBuffer<Entry>(1024, Entry(seq(DIGEST_LENGTH, _ => 0), 0));
      var digests := new RadixTree(defaultCap, DIGEST_LENGTH);
      pending, tree := ring, digests;
      Repr := {ring as object, digests, digests.pools} + digests.pools.Footprint();
    }

    /** Move what is pending into the tree, in order. */
    method ProcessPending()
      requires Valid()
      modifies Repr
      ensures Valid()
      ensures pending.Contents() == []
      ensures tree.Contents() == ApplyAll(old(tree.Contents()), old(pending.Contents()))
    {
      hide RadixTree.Valid, RadixTree.Contents, KeyOf, RingBuffer<Entry>.Contents;
      var entry := Entry(seq(DIGEST_LENGTH, _ => 0), 0);
      var head, tail := pending.head, pending.tail;
      ghost var c, q := tree.Contents(), pending.Contents();
      while head != tail
        invariant Valid() && head == pending.head && tail == pending.tail
        invariant ApplyAll(tree.Contents(), pending.Contents()) == ApplyAll(c, q)
        decreases |pending.Contents()|
      {
        entry := pending.Pop(entry);
        tail := pending.tail;
        InsertEntry(entry);
      }
    }

    method InsertEntry(entry: Entry)
      requires Valid()
      modifies tree, tree.pools, tree.pools.Footprint()
      ensures Valid() && pending.Contents() == old(pending.Contents())
      ensures tree.Contents() == old(tree.Contents())[KeyOf(entry.key) := entry.value]
    {
      hide RadixTree.Valid, RadixTree.Contents, RingBuffer<Entry>.Valid, RingBuffer<Entry>.Contents;
      tree.Insert(entry.key, 2 * DIGEST_LENGTH, entry.value);
    }

    /** Leave an entry for the tree; it is dropped when the ring is full. */
    method InsertPending(key: Digest, value: Value)
      requires Valid()
      modifies pending
      ensures Valid() && tree.Contents() == old(tree.Contents())
      ensures pending.Contents() == if |old(pending.Contents())| + 1 < pending.size
                                    then old(pending.Contents()) + [Entry(key, value)] else old(pending.Contents())
    {
      hide RadixTree.Valid, RadixTree.Contents;
      var entry := Entry(key, value);
      pending.Push(entry);
    }

    /** What a submission does first: drain, then look the digest up. The tree answers exactly like a
        map from digests to values. */
    method Answer(hash: Digest) returns (r: Lookup)
      requires Valid()
      modifies Repr
      ensures Valid() && pending.Contents() == []
      ensures r == MapLookup(tree.Contents(), KeyOf(hash))
      ensures tree.Contents() == ApplyAll(old(tree.Contents()), old(pending.Contents()))
    {
      hide RadixTree.Valid, RadixTree.Contents, RingBuffer<Entry>.Contents, Answers, MapLookup;
      ProcessPending();
      r := tree.Get(hash, 2 * DIGEST_LENGTH);
      SameLengthExact(tree.Contents(), KeyOf(hash), r);
    }
  }
}
