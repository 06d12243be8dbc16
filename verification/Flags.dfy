/** The 256-bit block set carried by a slice acknowledgement, stored as 32 bytes. */
module Flags {
  import opened Bytes

  type Flags256 = f: seq<byte> | |f| == 32 witness seq(32, i => 0)

  function Bit(k: nat): bv8
    requires k < 8
  {
    (1 as bv8) << k
  }

  predicate Test(x: bv8, m: bv8) {
    x & m != 0
  }

  function Or(x: bv8, y: bv8): bv8 {
    x | y
  }

  predicate Has(f: Flags256, block: nat)
    requires block < 256
  {
    Test(f[block / 8], Bit(block % 8))
  }

  function Add(f: Flags256, block: nat): Flags256
    requires block < 256
  {
    f[block / 8 := Or(f[block / 8], Bit(block % 8))]
  }

  function Union(f: Flags256, g: Flags256): Flags256 {
    seq(32, i requires 0 <= i < 32 => Or(f[i], g[i]))
  }

  function NoFlags(): Flags256 {
    seq(32, i => 0)
  }

  function AllFlags(): Flags256 {
    seq(32, i => 0xFF)
  }

  lemma {:induction false} BitsDiffer(x: bv8, j: nat, k: nat)
    requires j < 8 && k < 8
    ensures Bit(k) != 0
    ensures Test(Or(x, Bit(j)), Bit(k)) <==> j == k || Test(x, Bit(k))
  {
  }

  lemma {:induction false} OrBit(x: bv8, y: bv8, m: bv8)
    ensures Test(Or(x, y), m) <==> Test(x, m) || Test(y, m)
  {
  }

  /** Adding a block adds that block and no other. */
  lemma {:induction false} AddHas(f: Flags256, block: nat, other: nat)
    requires block < 256 && other < 256
    ensures Has(Add(f, block), other) <==> other == block || Has(f, other)
  {
    hide Bit, Test, Or;
    if block / 8 == other / 8 {
      BitsDiffer(f[block / 8], block % 8, other % 8);
    }
  }

  lemma {:induction false} UnionHas(f: Flags256, g: Flags256, block: nat)
    requires block < 256
    ensures Has(Union(f, g), block) <==> Has(f, block) || Has(g, block)
  {
    hide Bit, Test, Or;
    OrBit(f[block / 8], g[block / 8], Bit(block % 8));
  }

  lemma {:induction false} FullHas(block: nat)
    requires block < 256
    ensures Has(AllFlags(), block) && !Has(NoFlags(), block)
  {
    hide Bit, Test;
    FullBit(Bit(block % 8));
    BitNotZero(block % 8);
  }

  lemma {:induction false} BitNotZero(k: nat)
    requires k < 8
    ensures Bit(k) != 0
  {
  }

  lemma {:induction false} FullBit(m: bv8)
    ensures Test(0xFF, m) <==> m != 0
    ensures !Test(0, m)
  {
  }

  // As sets of blocks, and as the algebra the merge of acknowledgements needs.

  lemma {:induction false} UnionAlgebra(f: Flags256, g: Flags256, h: Flags256)
    ensures Union(f, f) == f
    ensures Union(f, g) == Union(g, f)
    ensures Union(Union(f, g), h) == Union(f, Union(g, h))
    ensures Union(f, NoFlags()) == f
  {
    forall i | 0 <= i < 32
      ensures f[i] | f[i] == f[i] && f[i] | g[i] == g[i] | f[i]
           && (f[i] | g[i]) | h[i] == f[i] | (g[i] | h[i]) && f[i] | 0 == f[i]
    {
      OrAlgebra(f[i], g[i], h[i]);
    }
  }

  lemma {:induction false} OrAlgebra(x: bv8, y: bv8, z: bv8)
    ensures x | x == x && x | y == y | x && (x | y) | z == x | (y | z) && x | 0 == x
  {
  }
}
