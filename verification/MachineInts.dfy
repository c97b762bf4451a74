/** Bytes, 64-bit numbers, and what the modules on them share. */
module MachineInts {

  type Byte = n: nat | n < 256

  const LIMIT: nat := 0x1_0000_0000_0000_0000

  /** A 64-bit number; sums wrap. */
  type U64 = n: nat | n < LIMIT

  /** The number whose digits to base 256 are these bytes, the least significant first. */
  function FromLeast(b: seq<Byte>): nat {
    if b == [] then 0 else b[0] + 256 * FromLeast(b[1..])
  }

  /** The same, the most significant first. */
  function FromMost(b: seq<Byte>): nat {
    if b == [] then 0 else 256 * FromMost(b[..|b| - 1]) + b[|b| - 1]
  }

  const NO_JOB: nat := 0xffff_ffff

  /** A division is known by its quotient and remainder. */
  lemma QuotientOf(n: nat, d: nat, q: nat, r: nat)
    requires n == d * q + r && r < d
    ensures n / d == q && n % d == r
  {
    var p, m := n / d, n % d;
    assert n == d * p + m;
    AtLeastOne(d, p, q);
    AtLeastOne(d, q, p);
  }

  lemma AtLeastOne(d: nat, p: nat, q: nat)
    ensures p < q ==> d * p + d <= d * q
  {
    if p < q {
      var k := q - p;
      assert d * (p + k) == d * p + d * k;
      assert d <= d * k;
    }
  }
}
