/** The SynLZ compressor and its size bound (src/compression.rs). */
module SynLzCompressor {
  import opened Bytes
  import opened SynLzFormat

  /** Marks a slot no position has been put in yet. */
  const NO_ENTRY: int := -1

  /** Per slot: the last position hashed into it, and the word found there. */
  datatype Tables = Tables(offset: seq<int>, cache: seq<bv32>)

  predicate Valid(t: Tables) {
    |t.offset| == SLOTS && |t.cache| == SLOTS && forall h :: 0 <= h < SLOTS ==> NO_ENTRY <= t.offset[h]
  }

  function Fresh(): (t: Tables)
    ensures Valid(t)
  {
    Tables(seq(SLOTS, i => NO_ENTRY), seq(SLOTS, i => 0))
  }

  /** Positions at which a back-reference is looked for. */
  predicate Searches(src: seq<byte>, p: nat) {
    (p == 0 || p + 11 <= |src|) && p + 3 < |src|
  }

  function Put(src: seq<byte>, p: nat, t: Tables): (r: Tables)
    requires Valid(t) && p + 3 < |src|
    ensures Valid(r)
  {
    var v := Load32(src, p);
    Tables(t.offset[Slot(v) := p], t.cache[Slot(v) := v])
  }

  /** A usable back-reference: three equal bytes, at least three positions back. */
  predicate Usable(v: bv32, word: bv32, o: int, p: nat) {
    (v ^ word) & 0x00FF_FFFF == 0 && o != NO_ENTRY && p > o + 2
  }

  predicate Found(src: seq<byte>, p: nat, t: Tables)
    requires Valid(t) && p + 3 < |src|
  {
    var v := Load32(src, p);
    var h := Slot(v);
    Usable(v, t.cache[h], t.offset[h], p)
  }

  /** Extends a run of equal bytes, at most to `limit`. */
  function Extend(src: seq<byte>, o: nat, p: nat, t: nat, limit: nat): (r: nat)
    requires t <= limit && p + limit <= |src|
    ensures t <= r <= limit
    decreases limit - t
  {
    if t < limit && o + t < |src| && src[o + t] == src[p + t] then Extend(src, o, p, t + 1, limit) else t
  }

  function Limit(src: seq<byte>, p: nat): (r: nat)
    requires p + 3 < |src|
    ensures 1 <= r <= 271 && p + 2 + r < |src|
  {
    if |src| - p - 3 < 271 then |src| - p - 3 else 271
  }

  function NextItem(src: seq<byte>, p: nat, t: Tables): (x: Item)
    requires Valid(t) && p < |src|
    ensures Wellformed(x) && p + Covered(x) <= |src|
    ensures x.Match? ==> p + x.len < |src|
  {
    if Searches(src, p) && Found(src, p, t) then
      var h := Slot(Load32(src, p));
      Match(h, 2 + Extend(src, t.offset[h] + 2, p + 2, 1, Limit(src, p)))
    else Literal(src[p])
  }

  function NextTables(src: seq<byte>, p: nat, t: Tables): (r: Tables)
    requires Valid(t) && p < |src|
    ensures Valid(r)
  {
    if Searches(src, p) then Put(src, p, t) else t
  }

  /** The items the compressor emits from position `p` on. */
  function Items(src: seq<byte>, p: nat, t: Tables): (r: seq<Item>)
    requires Valid(t) && p <= |src|
    ensures AllWellformed(r)
    ensures p < |src| ==> r != []
    decreases |src| - p
  {
    if p == |src| then []
    else
      var x := NextItem(src, p, t);
      [x] + Items(src, p + Covered(x), NextTables(src, p, t))
  }

  function Compressed(src: seq<byte>): seq<byte> {
    Header(|src|) + (if src == [] then [] else Encode(Items(src, 0, Fresh())))
  }

  function TotalCovered(items: seq<Item>): nat {
    if items == [] then 0 else Covered(items[0]) + TotalCovered(items[1..])
  }

  /** The items cover the input exactly. */
  lemma {:induction false} ItemsCover(src: seq<byte>, p: nat, t: Tables)
    requires Valid(t) && p <= |src|
    ensures TotalCovered(Items(src, p, t)) == |src| - p
    ensures |Items(src, p, t)| <= |src| - p
    decreases |src| - p
  {
    if p < |src| {
      var x := NextItem(src, p, t);
      ItemsCover(src, p + Covered(x), NextTables(src, p, t));
      assert Items(src, p, t)[1..] == Items(src, p + Covered(x), NextTables(src, p, t));
    }
  }

  function Mask(cwbit: nat): bv32
    requires cwbit < 32
  {
    (1 as bv32) << cwbit
  }

  lemma {:induction false} NextBit(k: nat)
    requires k < 32
    ensures Mask(k) != 0
    ensures k == 31 <==> Mask(k) << 1 == 0
    ensures k < 31 ==> Mask(k) << 1 == Mask(k + 1)
  {
  }

  /** In eighths of a byte, an item pays its own bytes and its share of the next control word. */
  lemma {:induction false} TailSize(k: nat, items: seq<Item>)
    requires k < 32 && AllWellformed(items)
    ensures 8 * |Tail(Mask(k), items)| <= 8 * TotalCovered(items) + |items| + k
    decreases |items|
  {
    if items != [] {
      NextBit(k);
      if k == 31 {
        TailSize(0, items[1..]);
        assert |Encode(items[1..])| == 4 + |Tail(1, items[1..])|;
      } else {
        TailSize(k + 1, items[1..]);
      }
    }
  }

  /** Compression never needs more than the reserved capacity, for any input. */
  lemma {:induction false} CompressedSize(src: seq<byte>)
    ensures |Compressed(src)| <= |src| + |src| / 8 + 8
  {
    if src != [] {
      var items := Items(src, 0, Fresh());
      ItemsCover(src, 0, Fresh());
      TailSize(0, items);
      assert |Encode(items)| == 4 + |Tail(1, items)|;
    }
  }

  // The imperative form.

  /** The bytes before the current control word, that word so far, and the item bodies after it. */
  datatype Buffer = Buffer(front: seq<byte>, cw: bv32, bodies: seq<byte>)

  ghost function Flat(b: Buffer): seq<byte> {
    b.front + U32Bytes(b.cw) + b.bodies
  }

  /** What the buffer will hold once the remaining items are flagged and appended. */
  ghost function Completed(b: Buffer, m: bv32, rest: seq<Item>): seq<byte>
    requires AllWellformed(rest)
  {
    b.front + U32Bytes(b.cw | FlagWord(m, rest)) + b.bodies + Tail(m, rest)
  }

  ghost function Emit(b: Buffer, m: bv32, x: Item): Buffer
    requires Wellformed(x)
  {
    var marked := if x.Match? then b.(cw := b.cw | m) else b;
    marked.(bodies := marked.bodies + Body(x))
  }

  lemma {:induction false} EmitFlag(b: Buffer, m: bv32, x: Item)
    requires Wellformed(x)
    ensures Emit(b, m, x).front == b.front && Emit(b, m, x).bodies == b.bodies + Body(x)
    ensures Emit(b, m, x).cw == b.cw | Flag(x, m)
  {
    hide Body;
    if x.Literal? {
      OrZero(b.cw);
    }
  }

  ghost function Renew(b: Buffer): Buffer {
    Buffer(Flat(b), 0, [])
  }

  lemma {:induction false} OrAssociates(a: bv32, b: bv32, c: bv32)
    ensures a | (b | c) == (a | b) | c
  {
  }

  lemma {:induction false} OrZero(a: bv32)
    ensures a | 0 == a && 0 | a == a
  {
  }

  lemma {:induction false} FlagWordStep(cw: bv32, m: bv32, items: seq<Item>)
    requires items != [] && m != 0
    ensures cw | FlagWord(m, items) == (cw | Flag(items[0], m)) | FlagWord(m << 1, items[1..])
  {
    hide Flag;
    OrAssociates(cw, Flag(items[0], m), FlagWord(m << 1, items[1..]));
  }

  /** Emitting an item brings the buffer closer to the same completed stream. */
  lemma {:induction false} EmitSameWord(b: Buffer, m: bv32, items: seq<Item>)
    requires AllWellformed(items) && items != [] && m != 0 && m << 1 != 0
    ensures Completed(b, m, items) == Completed(Emit(b, m, items[0]), m << 1, items[1..])
  {
    hide U32, U32Bytes, Body, FlagWord, Flag, Emit;
    EmitFlag(b, m, items[0]);
    FlagWordStep(b.cw, m, items);
    assert Tail(m, items) == Body(items[0]) + Tail(m << 1, items[1..]);
  }

  lemma {:induction false} EmitLastOfWord(b: Buffer, m: bv32, items: seq<Item>)
    requires AllWellformed(items) && items != [] && m != 0 && m << 1 == 0
    ensures Completed(b, m, items) == Completed(Renew(Emit(b, m, items[0])), 1, items[1..])
  {
    hide Completed, U32, U32Bytes, Body, FlagWord, Flag, Tail, Emit;
    var rest := items[1..];
    EmitFlag(b, m, items[0]);
    LastCompleted(b, m, items);
    RenewCompleted(Emit(b, m, items[0]), rest);
    var word, next := U32Bytes(b.cw | Flag(items[0], m)), U32Bytes(FlagWord(1, rest));
    Join(b.front, word, b.bodies, Body(items[0]), next, Tail(1, rest));
  }

  lemma {:induction false} LastCompleted(b: Buffer, m: bv32, items: seq<Item>)
    requires AllWellformed(items) && items != [] && m != 0 && m << 1 == 0
    ensures Completed(b, m, items)
         == b.front + U32Bytes(b.cw | Flag(items[0], m)) + b.bodies
          + (Body(items[0]) + (U32Bytes(FlagWord(1, items[1..])) + Tail(1, items[1..])))
  {
    hide U32, U32Bytes, Body, FlagWord, Flag, Tail;
    LastFlagWord(b.cw, m, items);
    LastTail(m, items);
  }

  lemma {:induction false} RenewCompleted(b: Buffer, rest: seq<Item>)
    requires AllWellformed(rest)
    ensures Completed(Renew(b), 1, rest) == Flat(b) + U32Bytes(FlagWord(1, rest)) + [] + Tail(1, rest)
  {
    hide U32, U32Bytes, FlagWord, Tail;
    OrZero(FlagWord(1, rest));
  }

  lemma {:induction false} LastTail(m: bv32, items: seq<Item>)
    requires AllWellformed(items) && items != [] && m << 1 == 0
    ensures Tail(m, items) == Body(items[0]) + (U32Bytes(FlagWord(1, items[1..])) + Tail(1, items[1..]))
  {
    hide U32, U32Bytes, Body, FlagWord;
  }

  lemma {:induction false} Join(front: seq<byte>, w: seq<byte>, bodies: seq<byte>, body: seq<byte>, w': seq<byte>,
      tail: seq<byte>)
    ensures front + w + bodies + (body + (w' + tail)) == (front + w + (bodies + body)) + w' + [] + tail
  {
  }

  lemma {:induction false} LastFlagWord(cw: bv32, m: bv32, items: seq<Item>)
    requires items != [] && m != 0 && m << 1 == 0
    ensures cw | FlagWord(m, items) == cw | Flag(items[0], m)
  {
    hide Flag;
    OrZero(Flag(items[0], m));
    assert FlagWord(m << 1, items[1..]) == 0;
  }

  method ExtendMatch(src: seq<byte>, o: nat, p: nat, limit: nat) returns (t: nat)
    requires 1 <= limit && p + limit <= |src|
    ensures t == Extend(src, o, p, 1, limit)
  {
    t := 1;
    while t < limit && o + t < |src| && src[o + t] == src[p + t]
      invariant t <= limit && Extend(src, o, p, t, limit) == Extend(src, o, p, 1, limit)
    {
      t := t + 1;
    }
  }

  /** Marks the item at bit `m` of the current control word as a back-reference. */
  method SetFlag(dst: seq<byte>, cwPos: nat, m: bv32, ghost b: Buffer) returns (r: seq<byte>)
    requires dst == Flat(b) && cwPos == |b.front|
    ensures r == Flat(b.(cw := b.cw | m))
  {
    hide U32, U32Bytes;
    var cw := U32(dst[cwPos], dst[cwPos + 1], dst[cwPos + 2], dst[cwPos + 3]);
    ghost var w := U32Bytes(b.cw);
    assert dst[cwPos] == w[0] && dst[cwPos + 1] == w[1] && dst[cwPos + 2] == w[2] && dst[cwPos + 3] == w[3];
    r := dst[..cwPos] + U32Bytes(cw | m) + dst[cwPos + 4..];
  }

  /** Looks up and replaces the table entry of the word at `p`, and sizes the back-reference found, if any. */
  method Lookup(src: seq<byte>, p: nat, offset: array<int>, cache: array<bv32>) returns (x: Item)
    requires Searches(src, p) && offset.Length == SLOTS && cache.Length == SLOTS && offset as object != cache
    requires Valid(Tables(offset[..], cache[..]))
    modifies offset, cache
    ensures x == old(NextItem(src, p, Tables(offset[..], cache[..])))
    ensures Tables(offset[..], cache[..]) == Put(src, p, old(Tables(offset[..], cache[..])))
  {
    hide Slot, U32, Usable;
    var v := U32(src[p], src[p + 1], src[p + 2], src[p + 3]);
    var h := Slot(v);
    ghost var t := Tables(offset[..], cache[..]);
    var o := offset[h];
    offset[h] := p;
    var word := cache[h];
    cache[h] := v;
    assert word == t.cache[h] && o == t.offset[h];
    assert offset[..] == old(offset[..])[h := p];
    assert cache[..] == old(cache[..])[h := v];
    if Usable(v, word, o, p) {
      var rest := |src| - (p + 2) - 1;
      assert Found(src, p, t);
      var n := ExtendMatch(src, o + 2, p + 2, if rest < 255 + 16 then rest else 255 + 16);
      x := Match(h, 2 + n);
    } else {
      x := Literal(src[p]);
    }
  }

  /** Past the searched positions every item is a literal, so the control words are zero. */
  lemma {:induction false} TailIsLiteral(src: seq<byte>, p: nat, t: Tables, m: bv32)
    requires Valid(t) && p <= |src| && !Searches(src, p)
    ensures FlagWord(m, Items(src, p, t)) == 0
    decreases |src| - p
  {
    if p < |src| {
      TailIsLiteral(src, p + 1, t, m << 1);
      assert Items(src, p, t)[1..] == Items(src, p + 1, t);
      OrZero(0);
    }
  }

  lemma {:induction false} FlatAppend(b: Buffer, s: seq<byte>)
    ensures Flat(b.(bodies := b.bodies + s)) == Flat(b) + s
  {
    hide U32, U32Bytes;
  }

  method AppendItem(x: Item, dst: seq<byte>, cwPos: nat, m: bv32, ghost b: Buffer) returns (dst': seq<byte>)
    requires Wellformed(x) && dst == Flat(b) && cwPos == |b.front|
    ensures dst' == Flat(Emit(b, m, x))
  {
    hide Flat, Body;
    dst' := dst;
    ghost var marked := b;
    if x.Match? {
      dst' := SetFlag(dst, cwPos, m, b);
      marked := b.(cw := b.cw | m);
    }
    FlatAppend(marked, Body(x));
    dst' := dst' + Body(x);
  }

  /** The buffer after the item at bit `cwbit`: that item appended, and a new control word if the old one is full. */
  ghost predicate Advanced(b: Buffer, cwbit: nat, x: Item, b': Buffer, cwbit': nat)
    requires Wellformed(x) && cwbit < 32
  {
    var e := Emit(b, Mask(cwbit), x);
    if cwbit < 31 then b' == e && cwbit' == cwbit + 1 else b' == Renew(e) && cwbit' == 0
  }

  method EmitItem(x: Item, dst: seq<byte>, cwPos: nat, cwbit: nat, ghost b: Buffer)
    returns (dst': seq<byte>, cwPos': nat, cwbit': nat, ghost b': Buffer)
    requires Wellformed(x) && dst == Flat(b) && cwPos == |b.front| && cwbit < 32
    ensures dst' == Flat(b') && cwPos' == |b'.front| && cwbit' < 32
    ensures Advanced(b, cwbit, x, b', cwbit')
  {
    hide U32Bytes, U32, Body, Mask;
    b' := Emit(b, Mask(cwbit), x);
    dst' := AppendItem(x, dst, cwPos, Mask(cwbit), b);
    if cwbit < 31 {
      cwPos', cwbit' := cwPos, cwbit + 1;
    } else {
      cwPos', cwbit' := |dst'|, 0;
      dst', b' := dst' + U32Bytes(0), Renew(b');
    }
  }

  lemma {:induction false} AdvancedCompletes(b: Buffer, cwbit: nat, items: seq<Item>, b': Buffer, cwbit': nat)
    requires AllWellformed(items) && items != [] && cwbit < 32 && Advanced(b, cwbit, items[0], b', cwbit')
    ensures Completed(b, Mask(cwbit), items) == Completed(b', Mask(cwbit'), items[1..])
  {
    hide Completed, Emit, Mask;
    NextBit(cwbit);
    if cwbit < 31 {
      EmitSameWord(b, Mask(cwbit), items);
    } else {
      EmitLastOfWord(b, Mask(cwbit), items);
      assert Mask(0) == 1 by {
        FirstBit();
      }
    }
  }

  lemma {:induction false} FirstBit()
    ensures Mask(0) == 1
  {
  }

  lemma {:induction false} StartCompletes(header: seq<byte>, items: seq<Item>)
    requires AllWellformed(items)
    ensures Completed(Buffer(header, 0, []), Mask(0), items) == header + Encode(items)
  {
    hide U32, U32Bytes, FlagWord, Tail;
    OrZero(FlagWord(1, items));
  }

  method CompressInner(src: seq<byte>, header: seq<byte>) returns (dst: seq<byte>)
    requires src != []
    ensures dst == header + Encode(Items(src, 0, Fresh()))
  {
    hide U32Bytes, U32, Mask, Slot, Load32, NextItem, FlagWord, Tail, Completed;
    var offset := new int[SLOTS](i => NO_ENTRY);
    var cache := new bv32[SLOTS](i => 0);
    ghost var t := Tables(offset[..], cache[..]);
    assert t == Fresh();
    ghost var goal := header + Encode(Items(src, 0, Fresh()));
    var p, cwbit, cwPos := 0, 0, |header|;
    dst := header + U32Bytes(0);
    ghost var b := Buffer(header, 0, []);
    StartCompletes(header, Items(src, 0, Fresh()));
    while Searches(src, p)
      invariant p <= |src| && cwbit < 32 && t == Tables(offset[..], cache[..]) && Valid(t)
      invariant dst == Flat(b) && cwPos == |b.front|
      invariant Completed(b, Mask(cwbit), Items(src, p, t)) == goal
      decreases |src| - p
    {
      var x := Lookup(src, p, offset, cache);
      ghost var items, b0, k := Items(src, p, t), b, cwbit;
      dst, cwPos, cwbit, b := EmitItem(x, dst, cwPos, cwbit, b);
      t := Put(src, p, t);
      p := p + Covered(x);
      assert items[0] == x && items[1..] == Items(src, p, t);
      AdvancedCompletes(b0, k, items, b, cwbit);
    }
  
    TailIsLiteral(src, p, t, Mask(cwbit));
    LiteralsComplete(b, Mask(cwbit), Items(src, p, t));
    dst := AppendLiterals(src, p, dst, cwbit, t);
  }

  /** The remaining bytes, as literals. */
  method AppendLiterals(src: seq<byte>, start: nat, front: seq<byte>, bit: nat, ghost t: Tables)
    returns (dst: seq<byte>)
    requires Valid(t) && start <= |src| && !Searches(src, start) && bit < 32
    ensures dst == front + Tail(Mask(bit), Items(src, start, t))
  {
    hide U32, U32Bytes, Mask, Tail, Items;
    ghost var goal := front + Tail(Mask(bit), Items(src, start, t));
    var p, cwbit := start, bit;
    dst := front;
    while p < |src|
      invariant p <= |src| && cwbit < 32 && !Searches(src, p)
      invariant dst + Tail(Mask(cwbit), Items(src, p, t)) == goal
    {
      LiteralTail(src, p, t, cwbit);
      dst := dst + [src[p]];
      p := p + 1;
      if cwbit < 31 {
        cwbit := cwbit + 1;
      } else {
        dst := dst + U32Bytes(0);
        cwbit := 0;
      }
    }
    NoItemsTail(src, t, Mask(cwbit));
  }

  lemma {:induction false} NoItemsTail(src: seq<byte>, t: Tables, m: bv32)
    requires Valid(t)
    ensures Tail(m, Items(src, |src|, t)) == []
  {
  }

  lemma {:induction false} LiteralsComplete(b: Buffer, m: bv32, items: seq<Item>)
    requires AllWellformed(items) && FlagWord(m, items) == 0
    ensures Completed(b, m, items) == Flat(b) + Tail(m, items)
  {
    hide U32, U32Bytes, FlagWord, Tail;
    OrZero(b.cw);
  }

  lemma {:induction false} LiteralTail(src: seq<byte>, p: nat, t: Tables, cwbit: nat)
    requires Valid(t) && p < |src| && !Searches(src, p) && cwbit < 32
    ensures
      var rest := Items(src, p + 1, t);
      Tail(Mask(cwbit), Items(src, p, t)) ==
      [src[p]] + if cwbit < 31 then Tail(Mask(cwbit + 1), rest) else U32Bytes(0) + Tail(Mask(0), rest)
  {
    hide U32, U32Bytes, Mask, FlagWord;
    var items := Items(src, p, t);
    assert items[0] == Literal(src[p]) && items[1..] == Items(src, p + 1, t);
    NextBit(cwbit);
    FirstBit();
    TailIsLiteral(src, p + 1, t, 1);
  }

  method Compress(src: seq<byte>) returns (dst: seq<byte>)
    ensures dst == Compressed(src)
  {
    hide U16Bytes, Encode, Items;
    var size := |src|;
    if size >= 0x8000 {
      dst := U16Bytes(0x8000 + size % 0x8000) + U16Bytes(size / 0x8000 % 0x1_0000);
    } else {
      dst := U16Bytes(size);
      if size == 0 {
        return;
      }
    }
    dst := CompressInner(src, dst);
  }

  /** Small payloads and payloads that would not shrink by five percent are left alone. */
  function MaybeCompressed(data: seq<byte>): Option<seq<byte>> {
    if |data| > 64 && |Compressed(data)| < |data| * 95 / 100 then Some(Compressed(data)) else None
  }

  method MpCompress(data: seq<byte>) returns (r: Option<seq<byte>>)
    ensures r == MaybeCompressed(data)
  {
    if |data| <= 64 {
      return None;
    }
    var compressed := Compress(data);
    r := if |compressed| < |data| * 95 / 100 then Some(compressed) else None;
  }
}
