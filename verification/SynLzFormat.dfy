/**
 The SynLZ stream: a size header, then control words, each announcing up to 32 items.
 An item is a literal byte or a back-reference that names a hash-table slot instead of a distance.
 */
module SynLzFormat {
  import opened Bytes

  const SLOTS: nat := 4096
  const MAX_DECOMPRESSED_SIZE: nat := 0x2000_0000

  /** A back-reference copies `len` bytes from the position its slot holds. */
  datatype Item = Literal(b: byte) | Match(slot: nat, len: nat)

  predicate Wellformed(x: Item) {
    x.Match? ==> x.slot < SLOTS && 3 <= x.len <= 273
  }

  function Covered(x: Item): nat {
    if x.Literal? then 1 else x.len
  }

  /** The table slot of a word: its two low 12-bit groups, xored. */
  function Slot(v: bv32): (h: nat)
    ensures h < SLOTS
  {
    (((v >> 12) ^ v) & 4095) as nat
  }

  lemma {:induction false} SlotWords(v: bv32, w: bv32)
    requires (v ^ w) & 0x00FF_FFFF == 0
    ensures ((v >> 12) ^ v) & 4095 == ((w >> 12) ^ w) & 4095
  {
  }

  lemma {:induction false} SlotLow24(v: bv32, w: bv32)
    requires (v ^ w) & 0x00FF_FFFF == 0
    ensures Slot(v) == Slot(w)
  {
    SlotWords(v, w);
  }

  /** The slot depends on three bytes only, so reading one byte ahead of the output is harmless. */
  lemma {:induction false} SlotIgnoresFourthByte(s: seq<byte>, t: seq<byte>, i: nat)
    requires i + 4 <= |s| && i + 4 <= |t|
    requires s[i] == t[i] && s[i + 1] == t[i + 1] && s[i + 2] == t[i + 2]
    ensures Slot(Load32(s, i)) == Slot(Load32(t, i))
  {
    Low24(s[i], s[i + 1], s[i + 2], s[i + 3], t[i], t[i + 1], t[i + 2], t[i + 3]);
    SlotLow24(Load32(s, i), Load32(t, i));
  }

  /** Header: 15 bits, or a set top bit and 16 more. */
  function Header(size: nat): seq<byte> {
    if size < 0x8000 then U16Bytes(size)
    else U16Bytes(0x8000 + size % 0x8000) + U16Bytes(size / 0x8000 % 0x1_0000)
  }

  function Body(x: Item): (r: seq<byte>)
    requires Wellformed(x)
    ensures 1 <= |r| <= Covered(x)
  {
    match x
    case Literal(b) => [b]
    case Match(h, len) =>
      var t := len - 2;
      if t <= 15 then U16Bytes(16 * h + t) else U16Bytes(16 * h) + [ByteOf(t - 16)]
  }

  predicate AllWellformed(items: seq<Item>) {
    forall i :: 0 <= i < |items| ==> Wellformed(items[i])
  }

  function Flag(x: Item, m: bv32): bv32 {
    if x.Match? then m else 0
  }

  function Or(x: bv32, y: bv32): bv32 {
    x | y
  }

  /** The flags of the items from the slot of bit `m` to the end of its control word. */
  function FlagWord(m: bv32, items: seq<Item>): bv32
    decreases |items|
  {
    if m == 0 || items == [] then 0 else Or(Flag(items[0], m), FlagWord(m << 1, items[1..]))
  }

  /** What follows once the control word in force has reached bit `m`. */
  function Tail(m: bv32, items: seq<Item>): seq<byte>
    requires AllWellformed(items)
    decreases |items|, 0
  {
    if items == [] then []
    else Body(items[0]) + (if m << 1 == 0 then Encode(items[1..]) else Tail(m << 1, items[1..]))
  }

  function Encode(items: seq<Item>): seq<byte>
    requires AllWellformed(items)
    decreases |items|, 1
  {
    U32Bytes(FlagWord(1, items)) + Tail(1, items)
  }

  /** `m` is the mask of one bit. */
  predicate OneBit(m: bv32) {
    m != 0 && m & (m - 1) == 0
  }

  lemma {:induction false} OneBitShift(m: bv32)
    requires OneBit(m)
    ensures m << 1 == 0 || OneBit(m << 1)
  {
  }

  /** The bits of a word from `m` on. */
  function From(cw: bv32, m: bv32): bv32 {
    cw & !(m - 1)
  }

  function BitAt(cw: bv32, m: bv32): bv32 {
    cw & m
  }

  /** No bit below `m` is set. */
  predicate ClearBelow(w: bv32, m: bv32) {
    w & (m - 1) == 0
  }

  lemma {:induction false} FlagLow(m: bv32, rest: bv32, f: bv32)
    requires OneBit(m) && ClearBelow(rest, m << 1) && (f == 0 || f == m)
    ensures ClearBelow(Or(f, rest), m)
  {
  }

  lemma {:induction false} FlagHead(m: bv32, rest: bv32, f: bv32, cw: bv32)
    requires OneBit(m) && ClearBelow(rest, m << 1) && (f == 0 || f == m)
    requires From(cw, m) == Or(f, rest)
    ensures BitAt(cw, m) == f
  {
  }

  lemma {:induction false} FlagRest(m: bv32, rest: bv32, f: bv32, cw: bv32)
    requires OneBit(m) && ClearBelow(rest, m << 1) && (f == 0 || f == m)
    requires From(cw, m) == Or(f, rest)
    ensures From(cw, m << 1) == rest
  {
  }

  lemma {:induction false} FlagWordUnfold(m: bv32, items: seq<Item>)
    requires m != 0 && items != []
    ensures FlagWord(m, items) == Or(Flag(items[0], m), FlagWord(m << 1, items[1..]))
  {
    hide Flag, Or;
  }

  lemma {:induction false} FlagIs(x: Item, m: bv32)
    ensures Flag(x, m) == 0 || Flag(x, m) == m
  {
  }

  lemma {:induction false} NoFlagsAre(m: bv32, items: seq<Item>)
    requires m == 0 || items == []
    ensures FlagWord(m, items) == 0 && ClearBelow(0, m)
  {
  }

  /** The flags from bit `m` on leave the lower bits clear. */
  lemma {:induction false} FlagWordLow(m: bv32, items: seq<Item>)
    requires m == 0 || OneBit(m)
    ensures ClearBelow(FlagWord(m, items), m)
    decreases |items|
  {
    hide Flag, FlagWord, ClearBelow, Or;
    if m != 0 && items != [] {
      OneBitShift(m);
      FlagWordLow(m << 1, items[1..]);
      FlagWordUnfold(m, items);
      FlagIs(items[0], m);
      FlagLow(m, FlagWord(m << 1, items[1..]), Flag(items[0], m));
    } else {
      NoFlagsAre(m, items);
    }
  }

  lemma {:induction false} FlagWordSplit(m: bv32, items: seq<Item>)
    requires OneBit(m) && items != []
    ensures m != 0 && FlagWord(m, items) == Or(Flag(items[0], m), FlagWord(m << 1, items[1..]))
    ensures Flag(items[0], m) == 0 || Flag(items[0], m) == m
    ensures ClearBelow(FlagWord(m << 1, items[1..]), m << 1)
  {
    hide Flag, FlagWord, ClearBelow, Or;
    OneBitShift(m);
    FlagWordUnfold(m, items);
    FlagIs(items[0], m);
    FlagWordLow(m << 1, items[1..]);
  }

  /** The flag of the first item stands at bit `m` of a word that carries the flags from `m` on. */
  lemma {:induction false} FlagWordHead(m: bv32, items: seq<Item>, cw: bv32)
    requires OneBit(m) && items != [] && From(cw, m) == FlagWord(m, items)
    ensures BitAt(cw, m) == Flag(items[0], m)
  {
    hide OneBit, Flag, FlagWord, From, BitAt, ClearBelow, Or;
    FlagWordSplit(m, items);
    FlagHead(m, FlagWord(m << 1, items[1..]), Flag(items[0], m), cw);
  }

  /** Above it the word carries the remaining flags. */
  lemma {:induction false} FlagWordRest(m: bv32, items: seq<Item>, cw: bv32)
    requires OneBit(m) && items != [] && From(cw, m) == FlagWord(m, items)
    ensures From(cw, m << 1) == FlagWord(m << 1, items[1..])
  {
    hide OneBit, Flag, FlagWord, From, ClearBelow, Or;
    FlagWordSplit(m, items);
    FlagRest(m, FlagWord(m << 1, items[1..]), Flag(items[0], m), cw);
  }

  /** Bit by bit from `m` on, `cw` says which of the next items are back-references. */
  ghost predicate Announces(cw: bv32, m: bv32, items: seq<Item>)
    decreases |items|
  {
    m == 0 || items == [] || ((cw & m != 0 <==> items[0].Match?) && Announces(cw, m << 1, items[1..]))
  }

  lemma {:induction false} FlagWordAnnounces(cw: bv32, m: bv32, items: seq<Item>)
    requires m == 0 || OneBit(m)
    requires From(cw, m) == FlagWord(m, items)
    ensures Announces(cw, m, items)
    decreases |items|
  {
    hide FlagWord, From, Flag, BitAt;
    if m != 0 && items != [] {
      FlagWordHead(m, items, cw);
      FlagTells(items[0], m, cw);
      FlagWordRest(m, items, cw);
      OneBitShift(m);
      FlagWordAnnounces(cw, m << 1, items[1..]);
    }
  }

  lemma {:induction false} FlagTells(x: Item, m: bv32, cw: bv32)
    requires m != 0 && BitAt(cw, m) == Flag(x, m)
    ensures cw & m != 0 <==> x.Match?
  {
  }
}
