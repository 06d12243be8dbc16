/** Bytes, options and the little-endian words shared by the wire formats. */
module Bytes {

  type byte = bv8

  datatype Option<+T> = None | Some(value: T)

  function Nibble(n: nat): (b: bv4)
    requires n < 16
    ensures b as nat == n
  {
    n as bv4
  }

  lemma {:induction false} NibblesValue(hi: bv4, lo: bv4)
    ensures (((hi as bv8) << 4) | (lo as bv8)) as nat == 16 * (hi as nat) + lo as nat
  {
  }

  function ByteOf(n: nat): (b: byte)
    requires n < 256
    ensures b as nat == n
  {
    NibblesValue(Nibble(n / 16), Nibble(n % 16));
    ((Nibble(n / 16) as bv8) << 4) | (Nibble(n % 16) as bv8)
  }

  function U16(lo: byte, hi: byte): (n: nat)
    ensures n < 0x1_0000
  {
    lo as nat + 256 * (hi as nat)
  }

  function U16Bytes(n: nat): (r: seq<byte>)
    requires n < 0x1_0000
    ensures |r| == 2 && U16(r[0], r[1]) == n
  {
    [ByteOf(n % 256), ByteOf(n / 256)]
  }

  function U32(b0: byte, b1: byte, b2: byte, b3: byte): bv32 {
    (b0 as bv32) | ((b1 as bv32) << 8) | ((b2 as bv32) << 16) | ((b3 as bv32) << 24)
  }

  function U32Bytes(w: bv32): (r: seq<byte>)
    ensures |r| == 4 && U32(r[0], r[1], r[2], r[3]) == w
  {
    [(w & 255) as bv8, ((w >> 8) & 255) as bv8, ((w >> 16) & 255) as bv8, (w >> 24) as bv8]
  }

  /** The four bytes at `i`, as one little-endian word. */
  function Load32(s: seq<byte>, i: nat): bv32
    requires i + 4 <= |s|
  {
    U32(s[i], s[i + 1], s[i + 2], s[i + 3])
  }

  /** Words that agree on their low 24 bits were loaded from equal leading bytes, and conversely. */
  lemma {:induction false} Low24(a: byte, b: byte, c: byte, d: byte, a': byte, b': byte, c': byte, d': byte)
    ensures (U32(a, b, c, d) ^ U32(a', b', c', d')) & 0x00FF_FFFF == 0 <==> a == a' && b == b' && c == c'
  {
  }
}
