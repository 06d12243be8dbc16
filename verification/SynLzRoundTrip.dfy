/**
 Decompression undoes compression. The table is never sent: compressor and decoder each rebuild it,
 the decoder up to three positions late, and a back-reference names only a slot.
 */
module SynLzRoundTrip {
  import opened Bytes
  import opened SynLzFormat
  import opened SynLzDecoder
  import C = SynLzCompressor

  // Recording positions.

  lemma {:induction false} RecordRangeSnoc(offset: seq<nat>, dst: seq<byte>, lo: nat, hi: nat)
    requires |offset| == SLOTS && lo <= hi
    ensures RecordRange(offset, dst, lo, hi + 1) == Record(RecordRange(offset, dst, lo, hi), dst, hi)
    decreases hi - lo
  {
    if lo < hi {
      RecordRangeSnoc(Record(offset, dst, lo), dst, lo + 1, hi);
    } else {
      assert RecordRange(Record(offset, dst, lo), dst, lo + 1, lo + 1) == Record(offset, dst, lo);
    }
  }

  /** A slot that holds something older than the range was not touched by it. */
  lemma {:induction false} RecordRangeOld(offset: seq<nat>, dst: seq<byte>, lo: nat, hi: nat, h: nat)
    requires |offset| == SLOTS && lo <= hi && h < SLOTS
    ensures RecordRange(offset, dst, lo, hi)[h] == offset[h] || RecordRange(offset, dst, lo, hi)[h] >= lo
    decreases hi - lo
  {
    if lo < hi {
      RecordRangeOld(Record(offset, dst, lo), dst, lo + 1, hi, h);
    }
  }

  /** Three known bytes are enough to record a position. */
  lemma {:induction false} RecordSame(offset: seq<nat>, s: seq<byte>, t: seq<byte>, i: nat, n: nat)
    requires |offset| == SLOTS && |s| == |t| && i + 3 <= n <= |s| && s[..n] == t[..n]
    ensures Record(offset, s, i) == Record(offset, t, i)
  {
    if i + 4 <= |s| {
      assert s[i] == s[..n][i] && s[i + 1] == s[..n][i + 1] && s[i + 2] == s[..n][i + 2];
      SlotIgnoresFourthByte(s, t, i);
    }
  }

  lemma {:induction false} RecordRangeSame(offset: seq<nat>, s: seq<byte>, t: seq<byte>, lo: nat, hi: nat, n: nat)
    requires |offset| == SLOTS && |s| == |t| && lo <= hi && hi + 2 <= n <= |s| && s[..n] == t[..n]
    ensures RecordRange(offset, s, lo, hi) == RecordRange(offset, t, lo, hi)
    decreases hi - lo
  {
    if lo < hi {
      RecordSame(offset, s, t, lo, n);
      RecordRangeSame(Record(offset, s, lo), s, t, lo + 1, hi, n);
    }
  }

  // The two tables.

  /** The compressor's tables describe positions before `p`. */
  ghost predicate Describes(src: seq<byte>, p: nat, t: C.Tables) {
    C.Valid(t) && forall h :: 0 <= h < SLOTS && t.offset[h] != C.NO_ENTRY ==>
      t.offset[h] < p && t.offset[h] + 4 <= |src| && t.cache[h] == Load32(src, t.offset[h])
  }

  /** Wherever the compressor's table has an entry, this table has the same. */
  ghost predicate Agrees(offset: seq<nat>, t: C.Tables)
    requires |offset| == SLOTS && C.Valid(t)
  {
    forall h :: 0 <= h < SLOTS && t.offset[h] != C.NO_ENTRY ==> offset[h] == t.offset[h]
  }

  /** The decoder has reproduced the first `p` bytes. */
  ghost predicate Reproduced(src: seq<byte>, p: nat, d: Decoder) {
    Valid(d) && |d.dst| == |src| && d.pos == p && d.dst[..p] == src[..p]
  }

  /**
   The lag: the decoder is at most three positions behind, and recording the positions it still
   owes would bring its table level with the compressor's.
   */
  ghost predicate InStep(src: seq<byte>, p: nat, t: C.Tables, d: Decoder) {
    && Reproduced(src, p, d)
    && Describes(src, p, t)
    && p - 3 <= d.lastHashed
    && Agrees(RecordRange(d.offset, src, d.lastHashed + 1, p), t)
  }

  /** At a usable back-reference the decoder's lagging table holds the compressor's position. */
  lemma {:induction false} SameOffset(src: seq<byte>, p: nat, t: C.Tables, d: Decoder)
    requires InStep(src, p, t, d) && p + 3 < |src| && C.Found(src, p, t)
    ensures d.offset[Slot(Load32(src, p))] == t.offset[Slot(Load32(src, p))]
  {
    RecordRangeOld(d.offset, src, d.lastHashed + 1, p, Slot(Load32(src, p)));
  }

  lemma {:induction false} PutKeepsStep(src: seq<byte>, p: nat, t: C.Tables, offset: seq<nat>, lo: nat)
    requires |offset| == SLOTS && lo <= p && p + 3 < |src| && Describes(src, p, t)
    requires Agrees(RecordRange(offset, src, lo, p), t)
    ensures Describes(src, p + 1, C.Put(src, p, t))
    ensures Agrees(RecordRange(offset, src, lo, p + 1), C.Put(src, p, t))
  {
    RecordRangeSnoc(offset, src, lo, p);
  }

  lemma {:induction false} DescribesValid(src: seq<byte>, p: nat, t: C.Tables)
    requires Describes(src, p, t)
    ensures C.Valid(t)
  {
  }

  lemma {:induction false} LiteralInStep(src: seq<byte>, p: nat, t: C.Tables, d: Decoder)
    requires InStep(src, p, t, d) && p + 3 < |src|
    ensures InStep(src, p + 1, C.Put(src, p, t), AfterLiteral(EmitLiteral(d, src[p])))
  {
    hide Record, C.Put, Describes, Agrees;
    assert C.Valid(t) by {
      DescribesValid(src, p, t);
    }
    PutKeepsStep(src, p, t, d.offset, d.lastHashed + 1);
    var d' := EmitLiteral(d, src[p]);
    assert d'.dst[..p + 1] == src[..p + 1];
    if d.lastHashed < d'.pos - 3 {
      RecordSame(d.offset, d'.dst, src, d.lastHashed + 1, p + 1);
    }
  }

  // Copies.

  /** `n` bytes from `o` on repeat from `p` on. */
  predicate Repeats(src: seq<byte>, o: nat, p: nat, n: nat) {
    o <= p && p + n <= |src| && src[o..o + n] == src[p..p + n]
  }

  /** A repetition is reproduced by copying, even where the two runs overlap. */
  lemma {:induction false} CopyReproduces(src: seq<byte>, dst: seq<byte>, o: nat, p: nat, n: nat)
    requires |dst| == |src| && o < p && Repeats(src, o, p, n) && dst[..p] == src[..p]
    ensures CopyBytes(dst, o, p, n)[..p + n] == src[..p + n]
    decreases n
  {
    if n > 0 {
      var dst' := dst[p := dst[o]];
      assert dst[o] == dst[..p][o] && src[o..o + n][0] == src[p..p + n][0];
      assert dst'[..p + 1] == src[..p + 1];
      assert src[o + 1..o + n] == src[o..o + n][1..] == src[p..p + n][1..] == src[p + 1..p + n];
      CopyReproduces(src, dst', o + 1, p + 1, n - 1);
    }
  }

  lemma {:induction false} ExtendRepeats(src: seq<byte>, o: nat, p: nat, t: nat, limit: nat)
    requires t <= limit && p + limit <= |src| && Repeats(src, o, p, t)
    ensures Repeats(src, o, p, C.Extend(src, o, p, t, limit))
    decreases limit - t
  {
    assert o + t <= p + t;
    if t < limit && src[o + t] == src[p + t] {
      assert src[o..o + t + 1] == src[o..o + t] + [src[o + t]];
      assert src[p..p + t + 1] == src[p..p + t] + [src[p + t]];
      ExtendRepeats(src, o, p, t + 1, limit);
    }
  }

  lemma {:induction false} RepeatsLonger(src: seq<byte>, o: nat, p: nat, n: nat)
    requires o < p && p + 2 <= |src| && src[o] == src[p] && src[o + 1] == src[p + 1]
    requires Repeats(src, o + 2, p + 2, n)
    ensures Repeats(src, o, p, 2 + n)
  {
    assert src[o..o + 2 + n] == [src[o], src[o + 1]] + src[o + 2..o + 2 + n];
    assert src[p..p + 2 + n] == [src[p], src[p + 1]] + src[p + 2..p + 2 + n];
  }

  lemma {:induction false} EqualBytes(src: seq<byte>, p: nat, o: nat)
    requires p + 4 <= |src| && o + 4 <= |src| && (Load32(src, p) ^ Load32(src, o)) & 0x00FF_FFFF == 0
    ensures src[o] == src[p] && src[o + 1] == src[p + 1] && src[o + 2] == src[p + 2]
  {
    Low24(src[p], src[p + 1], src[p + 2], src[p + 3], src[o], src[o + 1], src[o + 2], src[o + 3]);
  }

  lemma {:induction false} EqualAt(src: seq<byte>, p: nat, t: C.Tables, h: nat, word: bv32)
    requires Describes(src, p, t) && p + 4 <= |src| && h < SLOTS && t.offset[h] != C.NO_ENTRY
    requires word == t.cache[h] && (Load32(src, p) ^ word) & 0x00FF_FFFF == 0
    ensures
      var o := t.offset[h];
      src[o] == src[p] && src[o + 1] == src[p + 1] && src[o + 2] == src[p + 2]
  {
    EqualBytes(src, p, t.offset[h]);
  }

  /** A usable back-reference starts with three equal bytes, three or more positions back. */
  lemma {:induction false} FoundRepeats(src: seq<byte>, p: nat, t: C.Tables)
    requires Describes(src, p, t) && p + 3 < |src| && C.Found(src, p, t)
    ensures
      var o := t.offset[Slot(Load32(src, p))];
      0 <= o && o + 3 <= p && src[o] == src[p] && src[o + 1] == src[p + 1] && src[o + 2] == src[p + 2]
  {
    var h := Slot(Load32(src, p));
    EqualAt(src, p, t, h, t.cache[h]);
  }

  /** The bytes a back-reference covers do repeat. */
  lemma {:induction false} MatchRepeats(src: seq<byte>, p: nat, t: C.Tables)
    requires Describes(src, p, t) && C.Searches(src, p) && C.Found(src, p, t)
    ensures Repeats(src, t.offset[Slot(Load32(src, p))], p, C.NextItem(src, p, t).len)
  {
    hide Slot, Load32, C.Found, C.Limit, C.Extend, Repeats;
    FoundRepeats(src, p, t);
    var o, limit := t.offset[Slot(Load32(src, p))], C.Limit(src, p);
    ExtendRepeats(src, o + 2, p + 2, 1, limit);
    RepeatsLonger(src, o, p, C.Extend(src, o + 2, p + 2, 1, limit));
  }

  /** The decoder copies from the right place, and the copy reproduces the covered bytes. */
  lemma {:induction false} MatchReproduces(src: seq<byte>, p: nat, t: C.Tables, d: Decoder)
    requires InStep(src, p, t, d) && C.Searches(src, p) && C.Found(src, p, t)
    ensures
      var x := C.NextItem(src, p, t);
      var from := d.offset[x.slot];
      from < p && CopyBytes(d.dst, from, p, x.len)[..p + x.len] == src[..p + x.len]
  {
    var x := C.NextItem(src, p, t);
    SameOffset(src, p, t, d);
    MatchRepeats(src, p, t);
    CopyReproduces(src, d.dst, d.offset[x.slot], p, x.len);
  }

  lemma {:induction false} MatchInStep(src: seq<byte>, p: nat, t: C.Tables, d: Decoder, dst: seq<byte>, len: nat)
    requires InStep(src, p, t, d) && 3 <= len && p + len < |src|
    requires |dst| == |src| && dst[..p + len] == src[..p + len]
    ensures InStep(src, p + len, C.Put(src, p, t), AfterMatch(d.(dst := dst), len))
  {
    PutKeepsStep(src, p, t, d.offset, d.lastHashed + 1);
    RecordRangeSame(d.offset, dst, src, d.lastHashed + 1, p + 1, p + len);
  }

  // The stream.

  lemma {:induction false} ShortReadBack(b: seq<byte>, h: nat, t: nat)
    requires h < SLOTS && 1 <= t <= 15 && U16Bytes(16 * h + t) <= b
    ensures ReadReference(b, 0) == Some(Reference(h, t + 2, 2))
  {
    hide U16Bytes, U16;
    assert b[0] == U16Bytes(16 * h + t)[0] && b[1] == U16Bytes(16 * h + t)[1];
  }

  lemma {:induction false} LongReadBack(b: seq<byte>, h: nat, last: byte)
    requires h < SLOTS && U16Bytes(16 * h) + [last] <= b
    ensures ReadReference(b, 0) == Some(Reference(h, last as nat + 18, 3))
  {
    hide U16Bytes, U16;
    var w := U16Bytes(16 * h) + [last];
    assert b[0] == w[0] && b[1] == w[1] && b[2] == w[2];
  }

  /** Both encodings of a back-reference are read back from any bytes that start with them. */
  lemma {:induction false} BodyReadBack(b: seq<byte>, x: Item)
    requires Wellformed(x) && x.Match? && Body(x) <= b
    ensures ReadReference(b, 0) == Some(Reference(x.slot, x.len, |Body(x)|))
  {
    hide U16Bytes, ReadReference;
    if x.len <= 17 {
      ShortReadBack(b, x.slot, x.len - 2);
    } else {
      LongReadBack(b, x.slot, ByteOf(x.len - 18));
    }
  }

  lemma {:induction false} ReferenceReadBack(stream: seq<byte>, pos: nat, x: Item)
    requires Wellformed(x) && x.Match? && pos <= |stream| && Body(x) <= stream[pos..]
    ensures ReadReference(stream, pos) == Some(Reference(x.slot, x.len, pos + |Body(x)|))
  {
    BodyReadBack(stream[pos..], x);
  }

  /** What is left of the stream before the item at bit `m`, or before a new control word. */
  ghost function Remaining(m: bv32, items: seq<Item>): seq<byte>
    requires AllWellformed(items)
  {
    if m == 0 then Encode(items) else Tail(m, items)
  }

  lemma {:induction false} RemainingSplit(stream: seq<byte>, pos: nat, m: bv32, items: seq<Item>)
    requires AllWellformed(items) && items != [] && m != 0
    requires pos <= |stream| && stream[pos..] == Remaining(m, items)
    ensures Body(items[0]) <= stream[pos..]
    ensures
      var next := pos + |Body(items[0])|;
      && next <= |stream|
      && stream[next..] == Remaining(m << 1, items[1..])
      && (next == |stream| <==> m << 1 != 0 && items[1..] == [])
  {
    var b, rest := Body(items[0]), Remaining(m << 1, items[1..]);
    assert stream[pos..] == b + rest;
    assert stream[pos + |b|..] == stream[pos..][|b|..] == rest;
  }

  ghost predicate Ready(src: seq<byte>, p: nat, t: C.Tables, d: Decoder) {
    C.Valid(t) && p <= |src| && Reproduced(src, p, d) && (C.Searches(src, p) ==> InStep(src, p, t, d))
  }

  /** A literal read back leaves the decoder ready for what follows it. */
  lemma {:induction false} LiteralReady(src: seq<byte>, p: nat, t: C.Tables, d: Decoder)
    requires Ready(src, p, t, d) && p < |src|
    ensures Reproduced(src, p + 1, EmitLiteral(d, src[p]))
    ensures Ready(src, p + 1, C.NextTables(src, p, t), AfterLiteral(EmitLiteral(d, src[p])))
  {
    assert EmitLiteral(d, src[p]).dst[..p + 1] == src[..p + 1];
    if C.Searches(src, p) {
      LiteralInStep(src, p, t, d);
    }
  }

  /** So does a back-reference. */
  lemma {:induction false} MatchReady(src: seq<byte>, p: nat, t: C.Tables, d: Decoder, stream: seq<byte>, next: nat)
    requires Ready(src, p, t, d) && p < |src| && C.NextItem(src, p, t).Match? && 0 < next < |stream|
    ensures
      var x := C.NextItem(src, p, t);
      var step := TakeReference(stream, Reference(x.slot, x.len, next), d);
      step.Next? && step.pos == next && Ready(src, p + x.len, C.NextTables(src, p, t), step.decoder)
  {
    var x := C.NextItem(src, p, t);
    MatchReproduces(src, p, t, d);
    MatchInStep(src, p, t, d, CopyBytes(d.dst, d.offset[x.slot], p, x.len), x.len);
  }

  /** What one step of the decoder must leave after the item at `p`. */
  ghost predicate Advanced(src: seq<byte>, p: nat, t: C.Tables, stream: seq<byte>, m: bv32, step: Progress)
    requires C.Valid(t) && p < |src|
  {
    match step
    case Stop(r) => r.Finished? && r.decoder.pos == |src| && r.decoder.dst == src
    case Next(pos, d) =>
      var p', t' := p + Covered(C.NextItem(src, p, t)), C.NextTables(src, p, t);
      Ready(src, p', t', d) && pos <= |stream| && stream[pos..] == Remaining(m << 1, C.Items(src, p', t'))
  }

  lemma {:induction false} LiteralAdvances(src: seq<byte>, p: nat, t: C.Tables, stream: seq<byte>, pos: nat, m: bv32,
      d: Decoder)
    requires Ready(src, p, t, d) && p < |src| && m != 0 && C.NextItem(src, p, t).Literal?
    requires pos < |stream| && stream[pos..] == Remaining(m, C.Items(src, p, t))
    ensures Advanced(src, p, t, stream, m, TakeLiteral(stream, pos, d))
  {
    hide InStep, C.Found, C.NextTables, AfterLiteral, Remaining;
    var items := C.Items(src, p, t);
    RemainingSplit(stream, pos, m, items);
    assert items[1..] == C.Items(src, p + 1, C.NextTables(src, p, t));
    assert stream[pos] == stream[pos..][0] == src[p];
    LiteralReady(src, p, t, d);
    var d' := EmitLiteral(d, src[p]);
    assert p + 1 == |src| ==> d'.dst == d'.dst[..p + 1] == src[..p + 1] == src;
  }

  lemma {:induction false} MatchAdvances(src: seq<byte>, p: nat, t: C.Tables, stream: seq<byte>, pos: nat, m: bv32,
      d: Decoder)
    requires Ready(src, p, t, d) && p < |src| && m != 0 && C.NextItem(src, p, t).Match?
    requires pos < |stream| && stream[pos..] == Remaining(m, C.Items(src, p, t))
    ensures Advanced(src, p, t, stream, m, Step(stream, pos, false, d))
  {
    hide Ready, Run, C.NextItem, C.NextTables, TakeReference, ReadReference, Remaining, Body, C.Items;
    ReadyBasics(src, p, t, d);
    ItemsUnfold(src, p, t);
    var items := C.Items(src, p, t);
    RemainingSplit(stream, pos, m, items);
    ReferenceReadBack(stream, pos, items[0]);
    MatchReady(src, p, t, d, stream, pos + |Body(items[0])|);
  }

  lemma {:induction false} StepAdvances(
    src: seq<byte>, p: nat, t: C.Tables, stream: seq<byte>, pos: nat, literal: bool, m: bv32, d: Decoder)
    requires Ready(src, p, t, d) && p < |src| && m != 0 && literal == C.NextItem(src, p, t).Literal?
    requires pos < |stream| && stream[pos..] == Remaining(m, C.Items(src, p, t))
    ensures Advanced(src, p, t, stream, m, Step(stream, pos, literal, d))
  {
    if literal {
      LiteralAdvances(src, p, t, stream, pos, m, d);
    } else {
      MatchAdvances(src, p, t, stream, pos, m, d);
    }
  }

  /** From any item on, decoding what the compressor emits reproduces the rest of the input. */
  lemma {:induction false} RunReproduces(
    src: seq<byte>, p: nat, t: C.Tables, stream: seq<byte>, pos: nat, cw: bv32, m: bv32, d: Decoder)
    requires Ready(src, p, t, d)
    requires pos <= |stream| && stream[pos..] == Remaining(m, C.Items(src, p, t))
    requires m != 0 ==> Announces(cw, m, C.Items(src, p, t))
    ensures
      var r := Run(stream, pos, cw, m, d);
      r.Finished? && r.decoder.pos == |src| && r.decoder.dst == src
    decreases |src| - p, if m == 0 then 1 else 0
  {
    hide Run, Step, Ready, Remaining, Announces, Load32, C.Items, C.NextItem, C.NextTables;
    ReadyBasics(src, p, t, d);
    var items := C.Items(src, p, t);
    RunUnfold(stream, pos, cw, m, d);
    if m == 0 {
      assert stream[pos..] == Encode(items) by {
        RemainingUnfold(m, items);
      }
      NewControlWord(stream, pos, items);
      RemainingUnfold(1, items);
      RunReproduces(src, p, t, stream, pos + 4, Load32(stream, pos), 1, d);
    } else if p == |src| {
      NothingRemains(src, t, m, d);
    } else {
      ItemsUnfold(src, p, t);
      SomethingRemains(m, items);
      AnnouncesUnfold(cw, m, items);
      StepAdvances(src, p, t, stream, pos, cw & m == 0, m, d);
      var step := Step(stream, pos, cw & m == 0, d);
      if step.Next? {
        var p', t' := p + Covered(items[0]), C.NextTables(src, p, t);
        RunReproduces(src, p', t', stream, step.pos, cw, m << 1, step.decoder);
      }
    }
  }

  // The definitions above, one unfolding at a time.

  lemma {:induction false} ReadyBasics(src: seq<byte>, p: nat, t: C.Tables, d: Decoder)
    requires Ready(src, p, t, d)
    ensures C.Valid(t) && p <= |src| && Valid(d) && |d.dst| == |src| && d.pos == p
  {
  }

  lemma {:induction false} ItemsUnfold(src: seq<byte>, p: nat, t: C.Tables)
    requires C.Valid(t) && p < |src|
    ensures
      var items, x := C.Items(src, p, t), C.NextItem(src, p, t);
      items != [] && items[0] == x && items[1..] == C.Items(src, p + Covered(x), C.NextTables(src, p, t))
  {
  }

  lemma {:induction false} RunUnfold(stream: seq<byte>, pos: nat, cw: bv32, m: bv32, d: Decoder)
    requires Valid(d)
    ensures Run(stream, pos, cw, m, d) ==
      if m == 0 then
        if pos + 4 <= |stream| then Run(stream, pos + 4, Load32(stream, pos), 1, d) else Finished(d)
      else if pos >= |stream| then Finished(d)
      else
        var step := Step(stream, pos, cw & m == 0, d);
        if step.Stop? then step.outcome else Run(stream, step.pos, cw, m << 1, step.decoder)
  {
    hide Step, Load32;
  }

  lemma {:induction false} RemainingUnfold(m: bv32, items: seq<Item>)
    requires AllWellformed(items)
    ensures Remaining(m, items) == if m == 0 then Encode(items) else Tail(m, items)
  {
  }

  lemma {:induction false} SomethingRemains(m: bv32, items: seq<Item>)
    requires AllWellformed(items) && items != [] && m != 0
    ensures Remaining(m, items) != []
  {
    hide U32, U32Bytes, FlagWord;
  }

  lemma {:induction false} NothingRemains(src: seq<byte>, t: C.Tables, m: bv32, d: Decoder)
    requires Ready(src, |src|, t, d) && m != 0
    ensures Remaining(m, C.Items(src, |src|, t)) == [] && d.dst == src
  {
    hide InStep;
    assert d.dst == d.dst[..|src|] == src[..|src|] == src;
  }

  lemma {:induction false} AnnouncesUnfold(cw: bv32, m: bv32, items: seq<Item>)
    requires Announces(cw, m, items) && m != 0 && items != []
    ensures cw & m != 0 <==> items[0].Match?
    ensures Announces(cw, m << 1, items[1..])
  {
  }

  lemma {:induction false} NewControlWord(stream: seq<byte>, pos: nat, items: seq<Item>)
    requires AllWellformed(items) && pos <= |stream| && stream[pos..] == Encode(items)
    ensures pos + 4 <= |stream| && stream[pos + 4..] == Tail(1, items)
    ensures Announces(Load32(stream, pos), 1, items)
  {
    var w := FlagWord(1, items);
    assert forall i :: 0 <= i < 4 ==> stream[pos + i] == stream[pos..][i];
    assert stream[pos..][..4] == U32Bytes(w);
    assert stream[pos + 4..] == stream[pos..][4..];
    FlagWordAnnounces(w, 1, items);
  }

  // The theorem.

  lemma {:induction false} HeaderReadBack(stream: seq<byte>, size: nat)
    requires Header(size) <= stream
    ensures ReadHeader(stream) == Some((size % 0x8000_0000, |Header(size)|))
  {
    hide U16, U16Bytes;
    var h := Header(size);
    assert stream[0] == h[0] && stream[1] == h[1];
    if size < 0x8000 {
      assert h == U16Bytes(size);
    } else {
      assert stream[2] == h[2] && stream[3] == h[3];
      assert h[..2] == U16Bytes(0x8000 + size % 0x8000) && h[2..] == U16Bytes(size / 0x8000 % 0x1_0000);
      assert h[0] == h[..2][0] && h[1] == h[..2][1] && h[2] == h[2..][0] && h[3] == h[2..][1];
      SplitSize(size);
    }
  }

  lemma {:induction false} SplitSize(size: nat)
    ensures size % 0x8000 + 0x8000 * (size / 0x8000 % 0x1_0000) == size % 0x8000_0000
  {
    var q := size / 0x8000;
    assert size == 0x8000 * (0x1_0000 * (q / 0x1_0000) + q % 0x1_0000) + size % 0x8000;
  }

  lemma {:induction false} CompressedHeader(src: seq<byte>)
    ensures ReadHeader(C.Compressed(src)) == Some((|src| % 0x8000_0000, |Header(|src|)|))
  {
    HeaderReadBack(C.Compressed(src), |src|);
  }

  lemma {:induction false} StartReady(src: seq<byte>)
    ensures Ready(src, 0, C.Fresh(), Start(|src|))
  {
  }

  lemma {:induction false} BodyRoundTrip(src: seq<byte>, stream: seq<byte>, pos: nat)
    requires pos <= |stream| && stream[pos..] == Encode(C.Items(src, 0, C.Fresh()))
    ensures
      var r := Run(stream, pos, 0, 0, Start(|src|));
      r.Finished? && r.decoder.pos == |src| && r.decoder.dst == src
  {
    hide Run, Encode, Ready, Start, C.Items, C.Fresh;
    StartReady(src);
    assert C.Valid(C.Fresh());
    assert stream[pos..] == Remaining(0, C.Items(src, 0, C.Fresh()));
    RunReproduces(src, 0, C.Fresh(), stream, pos, 0, 0, Start(|src|));
  }

  lemma {:induction false} CompressedUnfold(src: seq<byte>)
    ensures
      var stream, pos := C.Compressed(src), |Header(|src|)|;
      if src == [] then pos == 2 else pos <= |stream| && stream[pos..] == Encode(C.Items(src, 0, C.Fresh()))
  {
    hide Encode, C.Items, C.Fresh, U16Bytes;
  }

  lemma {:induction false} RoundTripWithin(src: seq<byte>)
    requires |src| <= MAX_DECOMPRESSED_SIZE
    ensures Decoded(C.Compressed(src), MAX_DECOMPRESSED_SIZE) == Some(src)
  {
    hide Run, Encode, Start, C.Items, C.Fresh, ReadHeader, Header, C.Compressed;
    var stream, pos := C.Compressed(src), |Header(|src|)|;
    CompressedHeader(src);
    CompressedUnfold(src);
    if src != [] {
      BodyRoundTrip(src, stream, pos);
      assert src[..|src|] == src;
    }
  }

  /** The output never passes the declared size. */
  lemma {:induction false} DecodedSize(src: seq<byte>, maxOutput: nat)
    ensures Decoded(src, maxOutput).Some? ==>
      ReadHeader(src).Some? && |Decoded(src, maxOutput).value| <= ReadHeader(src).value.0 <= maxOutput
  {
    hide Run, U16;
  }

  /** Decompressing what was compressed gives the input back exactly up to the decompression limit. */
  lemma {:induction false} RoundTrip(src: seq<byte>)
    ensures Decoded(C.Compressed(src), MAX_DECOMPRESSED_SIZE) == Some(src) <==> |src| <= MAX_DECOMPRESSED_SIZE
  {
    if |src| <= MAX_DECOMPRESSED_SIZE {
      RoundTripWithin(src);
    } else {
      CompressedHeader(src);
      DecodedSize(C.Compressed(src), MAX_DECOMPRESSED_SIZE);
    }
  }
}
