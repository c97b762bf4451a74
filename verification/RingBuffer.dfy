/** The ring buffer between workers and the cache: called in sequence, and with one producer and one
    consumer taking turns at single loads and stores. */
module RingBuffers {

  const WORD: nat := 0x1_0000_0000

  /** The slot after `i`. */
  function After(i: nat, size: nat): (r: nat)
    requires i < size
    ensures r < size
  {
    if i + 1 == size then 0 else i + 1
  }

  lemma AfterIsMod(i: nat, size: nat)
    requires i < size
    ensures (i + 1) % size == After(i, size)
  {
    if i + 1 < size {
      SmallMod(i + 1, size);
    }
  }

  lemma SmallMod(i: nat, size: nat)
    requires i < size
    ensures i % size == i
  {
  }

  /** How many slots from `tail` up to `head`, going round. */
  function Gap(head: nat, tail: nat, size: nat): (r: nat)
    requires head < size && tail < size
    ensures r < size
  {
    if tail <= head then head - tail else head + size - tail
  }

  /** The slot `i` places after `tail`. */
  function Place(tail: nat, i: nat, size: nat): (r: nat)
    requires tail < size && i < size
    ensures r < size
  {
    if tail + i < size then tail + i else tail + i - size
  }

  /** The length formula of the buffer: a wrapping difference, reduced. */
  function LengthFormula(head: nat, tail: nat, size: nat): nat
    requires head < size && tail < size
  {
    (head - tail) % WORD % size
  }

  /** In a given state the length formula is right exactly when the head is not behind the tail or the
      size divides 2^32. */
  lemma LengthExact(head: nat, tail: nat, size: nat)
    requires head < size <= WORD && tail < size
    ensures LengthFormula(head, tail, size) == Gap(head, tail, size) <==> tail <= head || WORD % size == 0
  {
    if tail <= head {
      SmallMod(head - tail, size);
    } else {
      var g := head + size - tail;
      assert (head - tail) % WORD == WORD + head - tail;
      var q, r := WORD / size, WORD % size;
      assert WORD == size * q + r;
      assert WORD + head - tail == size * (q - 1) + (r + g) by { Distribute(size, q); }
      ModOf(r + g, size, q - 1);
      if r + g < size {
        SmallMod(r + g, size);
      } else {
        SmallMod(r + g - size, size);
        ModOf(r + g - size, size, 1);
      }
    }
  }

  /** In a ring of three with two elements queued the formula gives none. */
  lemma LengthWrong()
    ensures Gap(0, 1, 3) == 2 && LengthFormula(0, 1, 3) == 0
  {
    assert (0 - 1) % WORD == WORD - 1;
  }

  lemma Distribute(size: nat, q: int)
    ensures size * q - size == size * (q - 1)
  {
  }

  /** Adding whole rounds does not matter. */
  lemma ModOf(x: int, size: nat, q: int)
    requires 0 < size
    ensures (size * q + x) % size == x % size
  {
    var d := x / size;
    assert x == size * d + x % size;
    assert size * q + x == size * (q + d) + x % size by { Factor(size, q, d); }
    ModUnique(size * q + x, size, q + d, x % size);
  }

  lemma Factor(size: nat, q: int, d: int)
    ensures size * q + size * d == size * (q + d)
  {
  }

  lemma ModUnique(x: int, size: nat, q: int, r: nat)
    requires x == size * q + r && r < size
    ensures x % size == r
  {
    var p, m := x / size, x % size;
    assert x == size * p + m;
    assert size * (p - q) == r - m by { Factor(size, p, -q); NegMul(size, q); }
    if p - q >= 1 {
      AtLeast(size, p - q);
    } else if p - q <= -1 {
      AtLeast(size, q - p);
      NegMul(size, p - q);
    }
  }

  lemma NegMul(size: nat, q: int)
    ensures size * -q == -(size * q)
  {
  }

  lemma AtLeast(size: nat, d: int)
    requires 1 <= d
    ensures size <= size * d
  {
  }

  /** What lies between tail and head, oldest first. */
  ghost function Queue<T>(data: seq<T>, head: nat, tail: nat): (s: seq<T>)
    requires head < |data| && tail < |data|
    ensures |s| == Gap(head, tail, |data|)
  {
    var n := Gap(head, tail, |data|);
    seq(n, i requires 0 <= i < n => data[Place(tail, i, |data|)])
  }

  lemma QueuePush<T>(data: seq<T>, head: nat, tail: nat, val: T)
    requires head < |data| && tail < |data|
    ensures After(head, |data|) == tail <==> Gap(head, tail, |data|) + 1 == |data|
    ensures After(head, |data|) != tail ==>
              Queue(data[head := val], After(head, |data|), tail) == Queue(data, head, tail) + [val]
  {
  }

  lemma QueuePop<T>(data: seq<T>, head: nat, tail: nat)
    requires head < |data| && tail < |data| && head != tail
    ensures Queue(data, head, tail) == [data[tail]] + Queue(data, head, After(tail, |data|))
  {
  }

  class RingBuffer<T> {
    var data: seq<T>
    const size: nat
    var head: nat
    var tail: nat

    ghost predicate Valid()
      reads this
    {
      0 < size < WORD && |data| == size && head < size && tail < size
    }

    /** What is queued, oldest first. */
    ghost function Contents(): (s: seq<T>)
      reads this
      requires Valid()
      ensures |s| == Gap(head, tail, size)
    {
      Queue(data, head, tail)
    }

    constructor (cap: nat, zero: T)
      requires 0 < cap < WORD
      ensures Valid() && Contents() == [] && size == cap
    {
      size := cap;
      data := seq(cap, i => zero);
      head, tail := 0, 0;
    }

    method Length() returns (n: nat)
      requires Valid()
      ensures head >= tail || WORD % size == 0 ==> n == |Contents()|
    {
      LengthExact(head, tail, size);
      n := LengthFormula(head, tail, size);
    }

    /** Add an element, unless the buffer is full: it holds one less than its size. */
    method Push(val: T)
      requires Valid()
      modifies `data, `head
      ensures Valid()
      ensures Contents() == if |old(Contents())| + 1 < size then old(Contents()) + [val] else old(Contents())
    {
      var h, t := head, tail;
      AfterIsMod(h, size);
      QueuePush(data, h, t, val);
      if (h + 1) % size != t {
        data := data[h := val];
        head := (h + 1) % size;
      }
    }

    /** Take the oldest element; an empty buffer leaves the result as it was. */
    method Pop(val: T) returns (r: T)
      requires Valid()
      modifies `tail
      ensures Valid()
      ensures old(Contents()) == [] ==> r == val && Contents() == old(Contents())
      ensures old(Contents()) != [] ==> [r] + Contents() == old(Contents())
      ensures old(Contents()) != [] ==> tail == After(old(tail), size)
    {
      var h, t := head, tail;
      r := val;
      AfterIsMod(t, size);
      if h != t {
        QueuePop(data, h, t);
        r := data[t];
        tail := (t + 1) % size;
      }
    }
  }
}
