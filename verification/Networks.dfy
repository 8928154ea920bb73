/** Overlap of network blocks in prefix notation (section 3.1 of RFC 4632). */
module Networks {

  datatype Family = V4 | V6

  function Width(f: Family): nat {
    match f case V4 => 32 case V6 => 128
  }

  function Pow2(n: nat): (p: nat)
    ensures p > 0
  {
    if n == 0 then 1 else 2 * Pow2(n - 1)
  }

  /** A block as Go keeps it: an address, not necessarily the lowest one, and a prefix length. */
  datatype Block = Block(family: Family, ip: nat, prefix: nat) {
    predicate Valid() {
      prefix <= Width(family) && ip < Pow2(Width(family))
    }

    /** `IPNet.Contains`: same family, and equal once the host bits are masked off. */
    predicate Contains(f: Family, address: nat)
      requires Valid()
    {
      f == family && Drop(address, Width(family) - prefix) == Drop(ip, Width(family) - prefix)
    }
  }

  /** What is left of a number without its `n` lowest bits. */
  function Drop(x: nat, n: nat): nat {
    if n == 0 then x else Drop(x / 2, n - 1)
  }

  /* ---------- blocks as ranges of addresses ---------- */

  /** How many addresses a block has. */
  function Size(b: Block): nat
    requires b.Valid()
  {
    Pow2(Width(b.family) - b.prefix)
  }

  /** `address` is one of the `Size(b)` addresses from the lowest one of the block. */
  predicate InBlock(b: Block, address: nat)
    requires b.Valid()
  {
    var lowest := b.ip - b.ip % Size(b);
    lowest <= address < lowest + Size(b)
  }

  lemma QuotientIs(x: nat, p: nat, q: nat)
    requires p > 0
    ensures x / p == q <==> p * q <= x < p * q + p
  {
    assert x == p * (x / p) + x % p;
    if x / p < q { assert p * (x / p) + p <= p * q by { assert p * (x / p + 1) <= p * q; } }
    if x / p > q { assert p * q + p <= p * (x / p) by { assert p * (q + 1) <= p * (x / p); } }
  }

  lemma SameQuotient(x: nat, y: nat, p: nat)
    requires p > 0
    ensures x / p == y / p <==> y - y % p <= x < y - y % p + p
  {
    var q := y / p;
    assert y == p * q + y % p;
    QuotientIs(x, p, q);
  }

  lemma Doubled(x: nat, p: nat, q: nat)
    requires p * q <= x / 2 < p * q + p
    ensures (2 * p) * q <= x < (2 * p) * q + 2 * p
  {
    var product := p * q;
    assert (2 * p) * q == 2 * product;
    assert 2 * (x / 2) <= x <= 2 * (x / 2) + 1;
  }

  lemma HalfQuotient(x: nat, p: nat)
    requires p > 0
    ensures x / 2 / p == x / (2 * p)
  {
    var q := x / 2 / p;
    QuotientIs(x / 2, p, q);
    Doubled(x, p, q);
    QuotientIs(x, 2 * p, q);
  }

  /** Dropping bits is division by a power of two. */
  lemma {:induction false} DropDivides(x: nat, n: nat)
    ensures Drop(x, n) == x / Pow2(n)
  {
    if n > 0 {
      DropDivides(x / 2, n - 1);
      HalfQuotient(x, Pow2(n - 1));
    }
  }

  /** The masked comparison tells exactly the addresses of the block. */
  lemma ContainsExactly(b: Block, f: Family, address: nat)
    requires b.Valid()
    ensures b.Contains(f, address) <==> f == b.family && InBlock(b, address)
  {
    DropDivides(address, Width(b.family) - b.prefix);
    DropDivides(b.ip, Width(b.family) - b.prefix);
    SameQuotient(address, b.ip, Size(b));
  }

  /** `address` belongs to both blocks. */
  predicate Shared(a: Block, b: Block, address: nat)
    requires a.Valid() && b.Valid()
  {
    a.family == b.family && address < Pow2(Width(a.family)) && InBlock(a, address) && InBlock(b, address)
  }

  /** The blocks have an address in common. */
  ghost predicate Overlap(a: Block, b: Block)
    requires a.Valid() && b.Valid()
  {
    exists address: nat :: Shared(a, b, address)
  }

  lemma {:induction false} DropMore(x: nat, m: nat, n: nat)
    ensures Drop(x, m + n) == Drop(Drop(x, m), n)
  {
    if m > 0 {
      DropMore(x / 2, m - 1, n);
      assert m + n - 1 == (m - 1) + n;
    }
  }

  /** Of two blocks with a common address the one with the shorter prefix has the other's. */
  lemma WiderContains(a: Block, b: Block, address: nat)
    requires a.Valid() && b.Valid() && Shared(a, b, address) && a.prefix <= b.prefix
    ensures a.Contains(b.family, b.ip)
  {
    var narrow, more := Width(b.family) - b.prefix, b.prefix - a.prefix;
    assert Width(a.family) - a.prefix == narrow + more;
    ContainsExactly(a, a.family, address);
    ContainsExactly(b, b.family, address);
    DropMore(address, narrow, more);
    DropMore(b.ip, narrow, more);
  }

  /** Testing each block's own address against the other decides whether they overlap. */
  lemma TwoWayTest(a: Block, b: Block)
    requires a.Valid() && b.Valid()
    ensures a.Contains(b.family, b.ip) || b.Contains(a.family, a.ip) <==> Overlap(a, b)
  {
    ContainsExactly(a, b.family, b.ip);
    ContainsExactly(b, a.family, a.ip);
    ContainsExactly(a, a.family, a.ip);
    ContainsExactly(b, b.family, b.ip);
    if a.Contains(b.family, b.ip) { assert Shared(a, b, b.ip); }
    if b.Contains(a.family, a.ip) { assert Shared(a, b, a.ip); }
    if Overlap(a, b) {
      var address: nat :| Shared(a, b, address);
      assert Shared(b, a, address);
      if a.prefix <= b.prefix { WiderContains(a, b, address); } else { WiderContains(b, a, address); }
    }
  }

  ghost predicate Disjoint(blocks: seq<Block>)
    requires forall n :: 0 <= n < |blocks| ==> blocks[n].Valid()
  {
    forall i, j :: 0 <= i < j < |blocks| ==> !Overlap(blocks[i], blocks[j])
  }

  /** `NetworkOverlap`: an error for each pair that overlaps, and none exactly when the blocks
      are pairwise disjoint as sets of addresses. */
  method NetworkOverlap(blocks: seq<Block>) returns (errors: seq<(nat, nat)>)
    requires forall n :: 0 <= n < |blocks| ==> blocks[n].Valid()
    ensures errors == [] <==> Disjoint(blocks)
    ensures forall i, j :: (i, j) in errors <==> 0 <= i < j < |blocks| && Overlap(blocks[i], blocks[j])
  {
    errors := [];
    for i := 0 to |blocks|
      invariant forall x, y :: (x, y) in errors <==> 0 <= x < i && x < y < |blocks| && Overlap(blocks[x], blocks[y])
    {
      for j := i + 1 to |blocks|
        invariant forall x, y :: (x, y) in errors <==>
                    || (0 <= x < i && x < y < |blocks| && Overlap(blocks[x], blocks[y]))
                    || (x == i && i < y < j && Overlap(blocks[x], blocks[y]))
      {
        TwoWayTest(blocks[i], blocks[j]);
        if blocks[i].Contains(blocks[j].family, blocks[j].ip) || blocks[j].Contains(blocks[i].family, blocks[i].ip) {
          errors := errors + [(i, j)];
        }
      }
    }
    if errors != [] { assert (errors[0].0, errors[0].1) in errors; }
    if !Disjoint(blocks) {
      ghost var i, j :| 0 <= i < j < |blocks| && Overlap(blocks[i], blocks[j]);
      assert (i, j) in errors;
    }
  }
}
