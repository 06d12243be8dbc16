/** The SynLZ decoder on arbitrary bytes (src/compression.rs). */
module SynLzDecoder {
  import opened Bytes
  import opened SynLzFormat

  /**
   The decoder between two items: the whole output buffer, how much of it is written, the last
   position put in the table (-1 before the first) and the table itself.
   */
  datatype Decoder = Decoder(dst: seq<byte>, pos: nat, lastHashed: int, offset: seq<nat>)

  datatype Outcome = Finished(decoder: Decoder) | Corrupt

  predicate Valid(d: Decoder) {
    |d.offset| == SLOTS && d.pos <= |d.dst| && -1 <= d.lastHashed < d.pos
  }

  function Start(size: nat): (d: Decoder)
    ensures Valid(d)
  {
    Decoder(seq(size, i => 0), 0, -1, seq(SLOTS, i => 0))
  }

  /** Puts position `i` in the table, unless a word no longer fits there. */
  function Record(offset: seq<nat>, dst: seq<byte>, i: nat): (r: seq<nat>)
    requires |offset| == SLOTS
    ensures |r| == SLOTS
  {
    if i + 4 <= |dst| then offset[Slot(Load32(dst, i)) := i] else offset
  }

  /** Puts the positions `lo`, ..., `hi - 1` in the table, in that order. */
  function RecordRange(offset: seq<nat>, dst: seq<byte>, lo: nat, hi: nat): (r: seq<nat>)
    requires |offset| == SLOTS && lo <= hi
    ensures |r| == SLOTS
    decreases hi - lo
  {
    if lo == hi then offset else RecordRange(Record(offset, dst, lo), dst, lo + 1, hi)
  }

  function EmitLiteral(d: Decoder, b: byte): (r: Decoder)
    requires Valid(d) && d.pos < |d.dst|
    ensures Valid(r)
  {
    d.(dst := d.dst[d.pos := b], pos := d.pos + 1)
  }

  /** At most one position enters the table after a literal, three bytes behind the output. */
  function AfterLiteral(d: Decoder): (r: Decoder)
    requires Valid(d)
    ensures Valid(r)
  {
    if d.lastHashed < d.pos - 3 then
      d.(lastHashed := d.lastHashed + 1, offset := Record(d.offset, d.dst, d.lastHashed + 1))
    else d
  }

  /** Byte by byte, so that a source running into the target repeats itself. */
  function CopyBytes(dst: seq<byte>, from: nat, to: nat, n: nat): (r: seq<byte>)
    requires from <= to && to + n <= |dst|
    ensures |r| == |dst|
    decreases n
  {
    if n == 0 then dst else CopyBytes(dst[to := dst[from]], from + 1, to + 1, n - 1)
  }

  /** The table catches up to the start of the copied bytes, and skips the rest of them. */
  function AfterMatch(d: Decoder, len: nat): (r: Decoder)
    requires Valid(d) && 0 < len && d.pos + len <= |d.dst|
    ensures Valid(r)
  {
    d.(pos := d.pos + len, lastHashed := d.pos + len - 1,
       offset := RecordRange(d.offset, d.dst, d.lastHashed + 1, d.pos + 1))
  }

  /** A back-reference read from the stream, and where the stream continues. */
  datatype Reference = Reference(slot: nat, len: nat, next: nat)

  function ReadReference(src: seq<byte>, pos: nat): (r: Option<Reference>)
    requires pos <= |src|
    ensures r.Some? ==> r.value.slot < SLOTS && 0 < r.value.len && pos < r.value.next <= |src|
  {
    if pos + 2 > |src| then None
    else
      var word := U16(src[pos], src[pos + 1]);
      if word % 16 != 0 then Some(Reference(word / 16, word % 16 + 2, pos + 2))
      else if pos + 2 >= |src| then None
      else Some(Reference(word / 16, src[pos + 2] as nat + 18, pos + 3))
  }

  /** One item either ends the run or leaves the rest of the stream to be read from `pos`. */
  datatype Progress = Stop(outcome: Outcome) | Next(pos: nat, decoder: Decoder)

  function TakeLiteral(src: seq<byte>, pos: nat, d: Decoder): (r: Progress)
    requires Valid(d) && pos < |src|
    ensures Keeps(src, pos, d, r)
  {
    if d.pos >= |d.dst| then Stop(Finished(d))
    else
      var d' := EmitLiteral(d, src[pos]);
      if pos + 1 >= |src| then Stop(Finished(d')) else Next(pos + 1, AfterLiteral(d'))
  }

  function TakeReference(src: seq<byte>, ref: Reference, d: Decoder): (r: Progress)
    requires Valid(d) && ref.slot < SLOTS && 0 < ref.len && 0 < ref.next <= |src|
    ensures Keeps(src, ref.next - 1, d, r)
  {
    var from := d.offset[ref.slot];
    if d.pos + ref.len > |d.dst| || from + ref.len > |d.dst| || from > d.pos then Stop(Corrupt)
    else
      var d' := d.(dst := CopyBytes(d.dst, from, d.pos, ref.len));
      if ref.next >= |src| then Stop(Finished(d')) else Next(ref.next, AfterMatch(d', ref.len))
  }

  predicate Keeps(src: seq<byte>, pos: nat, d: Decoder, r: Progress) {
    match r
    case Stop(Finished(d')) => Valid(d') && |d'.dst| == |d.dst|
    case Stop(Corrupt) => true
    case Next(pos', d') => pos < pos' < |src| && Valid(d') && |d'.dst| == |d.dst|
  }

  function Step(src: seq<byte>, pos: nat, literal: bool, d: Decoder): (r: Progress)
    requires Valid(d) && pos < |src|
    ensures Keeps(src, pos, d, r)
  {
    if literal then TakeLiteral(src, pos, d)
    else
      var ref := ReadReference(src, pos);
      if ref.None? then Stop(Finished(d)) else TakeReference(src, ref.value, d)
  }

  /** The stream from `pos` on, with the next item at bit `m` of `cw`; `m == 0` asks for a new word. */
  function Run(src: seq<byte>, pos: nat, cw: bv32, m: bv32, d: Decoder): (r: Outcome)
    requires Valid(d)
    ensures r.Finished? ==> Valid(r.decoder) && |r.decoder.dst| == |d.dst|
    decreases |src| - pos
  {
    if m == 0 then
      if pos + 4 <= |src| then Run(src, pos + 4, Load32(src, pos), 1, d) else Finished(d)
    else if pos >= |src| then Finished(d)
    else
      match Step(src, pos, cw & m == 0, d)
      case Stop(outcome) => outcome
      case Next(pos', d') => Run(src, pos', cw, m << 1, d')
  }

  /** The declared size and where the stream starts, or nothing for a truncated header. */
  function ReadHeader(src: seq<byte>): (r: Option<(nat, nat)>)
    ensures r.Some? ==> r.value.1 <= |src|
  {
    if |src| < 2 then None
    else
      var first := U16(src[0], src[1]);
      if first < 0x8000 then Some((first, 2))
      else if |src| < 4 then None
      else Some((first - 0x8000 + 0x8000 * U16(src[2], src[3]), 4))
  }

  /** What `DecompressBounded` computes: the written part of the output buffer. */
  function Decoded(src: seq<byte>, maxOutput: nat): Option<seq<byte>> {
    var header := ReadHeader(src);
    if header.None? || header.value.0 > maxOutput then None
    else if header.value == (0, 2) then Some([])
    else
      var r := Run(src, header.value.1, 0, 0, Start(header.value.0));
      if r.Finished? then Some(r.decoder.dst[..r.decoder.pos]) else None
  }

  // Every table entry is a position already written.
  predicate Sound(d: Decoder) {
    Valid(d) && forall h :: 0 <= h < SLOTS ==> d.offset[h] <= d.pos
  }

  lemma {:induction false} RecordRangeBounded(offset: seq<nat>, dst: seq<byte>, lo: nat, hi: nat, bound: nat)
    requires |offset| == SLOTS && lo <= hi <= bound + 1
    requires forall h :: 0 <= h < SLOTS ==> offset[h] <= bound
    ensures forall h :: 0 <= h < SLOTS ==> RecordRange(offset, dst, lo, hi)[h] <= bound
    decreases hi - lo
  {
    if lo < hi {
      RecordRangeBounded(Record(offset, dst, lo), dst, lo + 1, hi, bound);
    }
  }

  lemma {:induction false} LiteralKeepsSound(src: seq<byte>, pos: nat, d: Decoder)
    requires Sound(d) && pos < |src|
    ensures
      match TakeLiteral(src, pos, d)
      case Stop(Finished(d')) => Sound(d')
      case Stop(Corrupt) => false
      case Next(_, d') => Sound(d')
  {
  }

  lemma {:induction false} ReferenceKeepsSound(src: seq<byte>, ref: Reference, d: Decoder)
    requires Sound(d) && ref.slot < SLOTS && 0 < ref.len && 0 < ref.next <= |src|
    ensures
      match TakeReference(src, ref, d)
      case Stop(Finished(d')) => Sound(d')
      case Stop(Corrupt) => d.pos + ref.len > |d.dst|
      case Next(_, d') => Sound(d')
  {
    if d.pos + ref.len <= |d.dst| {
      var dst := CopyBytes(d.dst, d.offset[ref.slot], d.pos, ref.len);
      RecordRangeBounded(d.offset, dst, d.lastHashed + 1, d.pos + 1, d.pos);
    }
  }

  /** Somewhere along the run a complete back-reference would pass the declared size. */
  ghost predicate Overruns(src: seq<byte>, pos: nat, cw: bv32, m: bv32, d: Decoder)
    requires Valid(d)
    decreases |src| - pos
  {
    if m == 0 then pos + 4 <= |src| && Overruns(src, pos + 4, Load32(src, pos), 1, d)
    else if pos >= |src| then false
    else if cw & m != 0 && ReadReference(src, pos).Some? && d.pos + ReadReference(src, pos).value.len > |d.dst| then
      true
    else
      match Step(src, pos, cw & m == 0, d)
      case Stop(_) => false
      case Next(pos', d') => Overruns(src, pos', cw, m << 1, d')
  }

  /**
   The guard on the position a back-reference copies from is dead code: on any stream whatever the
   decoder reports corruption exactly when the declared size would be overrun.
   */
  lemma {:induction false} CorruptIffOverrun(src: seq<byte>, pos: nat, cw: bv32, m: bv32, d: Decoder)
    requires Sound(d)
    ensures Run(src, pos, cw, m, d).Corrupt? <==> Overruns(src, pos, cw, m, d)
    decreases |src| - pos
  {
    if m == 0 {
      if pos + 4 <= |src| {
        CorruptIffOverrun(src, pos + 4, Load32(src, pos), 1, d);
      }
    } else if pos < |src| {
      if cw & m == 0 {
        LiteralKeepsSound(src, pos, d);
      } else if ReadReference(src, pos).Some? {
        ReferenceKeepsSound(src, ReadReference(src, pos).value, d);
      }
      var step := Step(src, pos, cw & m == 0, d);
      if step.Next? {
        CorruptIffOverrun(src, step.pos, cw, m << 1, step.decoder);
      }
    }
  }

  /** Bytes `from`, ..., `from + n - 1` to `to` on, the way one `memmove` would place them. */
  lemma {:induction false} CopyApart(dst: seq<byte>, from: nat, to: nat, n: nat)
    requires from + n <= to && to + n <= |dst|
    ensures CopyBytes(dst, from, to, n) == dst[..to] + dst[from..from + n] + dst[to + n..]
    decreases n
  {
    if n > 0 {
      CopyApart(dst[to := dst[from]], from + 1, to + 1, n - 1);
    }
  }

  method CopyForward(dst: array<byte>, from: nat, to: nat, n: nat)
    requires from <= to && to + n <= dst.Length
    modifies dst
    ensures dst[..] == CopyBytes(old(dst[..]), from, to, n)
  {
    for i := 0 to n
      invariant CopyBytes(dst[..], from + i, to + i, n - i) == CopyBytes(old(dst[..]), from, to, n)
    {
      ghost var before := dst[..];
      dst[to + i] := dst[from + i];
      assert dst[..] == before[to + i := before[from + i]];
    }
  }

  method CopyWithin(dst: array<byte>, from: nat, to: nat, n: nat)
    requires from + n <= to && to + n <= dst.Length
    modifies dst
    ensures dst[..] == CopyBytes(old(dst[..]), from, to, n)
  {
    forall i | 0 <= i < n {
      dst[to + i] := dst[from + i];
    }
    CopyApart(old(dst[..]), from, to, n);
    assert dst[..] == old(dst[..])[..to] + old(dst[..])[from..from + n] + old(dst[..])[to + n..];
  }

  method RecordAt(dst: array<byte>, offset: array<nat>, i: nat)
    requires offset.Length == SLOTS && offset as object != dst
    modifies offset
    ensures offset[..] == Record(old(offset[..]), dst[..], i)
  {
    if i + 4 <= dst.Length {
      var h := Slot(U32(dst[i], dst[i + 1], dst[i + 2], dst[i + 3]));
      offset[h] := i;
      assert offset[..] == old(offset[..])[h := i];
    }
  }

  method CatchUp(dst: array<byte>, offset: array<nat>, last: int, target: nat)
    requires offset.Length == SLOTS && offset as object != dst && -1 <= last <= target
    modifies offset
    ensures offset[..] == RecordRange(old(offset[..]), dst[..], last + 1, target + 1)
  {
    var lastHashed := last;
    while lastHashed < target
      invariant last <= lastHashed <= target
      invariant RecordRange(offset[..], dst[..], lastHashed + 1, target + 1)
             == RecordRange(old(offset[..]), dst[..], last + 1, target + 1)
    {
      lastHashed := lastHashed + 1;
      RecordAt(dst, offset, lastHashed);
    }
  }

  /** How an item left the stream: more to read, nothing more to read, or broken. */
  datatype Status = More | Ended | Broken

  ghost function Reached(status: Status, pos: nat, d: Decoder): Progress {
    match status
    case More => Next(pos, d)
    case Ended => Stop(Finished(d))
    case Broken => Stop(Corrupt)
  }

  /** One literal, then at most one table update. */
  method DecodeLiteral(src: seq<byte>, pos: nat, dst: array<byte>, offset: array<nat>, dstPos: nat, last: int)
    returns (status: Status, dstPos': nat, last': int)
    requires pos < |src| && offset.Length == SLOTS && offset as object != dst
    requires dstPos <= dst.Length && -1 <= last < dstPos
    modifies dst, offset
    ensures dstPos' <= dst.Length && -1 <= last' < dstPos'
    ensures TakeLiteral(src, pos, Decoder(old(dst[..]), dstPos, last, old(offset[..])))
         == Reached(status, pos + 1, Decoder(dst[..], dstPos', last', offset[..]))
  {
    dstPos', last' := dstPos, last;
    if dstPos >= dst.Length {
      return Ended, dstPos', last';
    }
    dst[dstPos] := src[pos];
    assert dst[..] == old(dst[..])[dstPos := src[pos]];
    dstPos' := dstPos + 1;
    if pos + 1 >= |src| {
      return Ended, dstPos', last';
    }
    if last' < dstPos' - 3 {
      last' := last' + 1;
      RecordAt(dst, offset, last');
    }
    return More, dstPos', last';
  }

  /** One back-reference: the copy, then the table catches up to where the copy started. */
  method DecodeReference(
    src: seq<byte>, ref: Reference, dst: array<byte>, offset: array<nat>, dstPos: nat, last: int)
    returns (status: Status, dstPos': nat, last': int)
    requires ref.slot < SLOTS && 0 < ref.len && 0 < ref.next <= |src|
    requires offset.Length == SLOTS && offset as object != dst
    requires dstPos <= dst.Length && -1 <= last < dstPos
    modifies dst, offset
    ensures dstPos' <= dst.Length && -1 <= last' < dstPos'
    ensures TakeReference(src, ref, Decoder(old(dst[..]), dstPos, last, old(offset[..])))
         == Reached(status, ref.next, Decoder(dst[..], dstPos', last', offset[..]))
  {
    dstPos', last' := dstPos, last;
    var copyFrom := offset[ref.slot];
    if dstPos + ref.len > dst.Length {
      return Broken, dstPos', last';
    }
    if copyFrom + ref.len > dst.Length || copyFrom > dstPos {
      return Broken, dstPos', last';
    }
    if dstPos - copyFrom < ref.len {
      CopyForward(dst, copyFrom, dstPos, ref.len);
    } else {
      CopyWithin(dst, copyFrom, dstPos, ref.len);
    }
    if ref.next >= |src| {
      return Ended, dstPos', last';
    }
    CatchUp(dst, offset, last, dstPos);
    return More, dstPos + ref.len, dstPos + ref.len - 1;
  }

  /** The outcome of the whole run once a control word is used up or the run is over. */
  ghost function Onward(src: seq<byte>, status: Status, pos: nat, d: Decoder): Outcome
    requires Valid(d)
  {
    match status
    case More => Run(src, pos, 0, 0, d)
    case Ended => Finished(d)
    case Broken => Corrupt
  }

  /** The inner loop: the items one control word announces. */
  method DecodeGroup(src: seq<byte>, start: nat, cw: bv32, dst: array<byte>, offset: array<nat>, dstPos: nat, last: int)
    returns (status: Status, pos: nat, dstPos': nat, last': int)
    requires offset.Length == SLOTS && offset as object != dst
    requires dstPos <= dst.Length && -1 <= last < dstPos
    modifies dst, offset
    ensures dstPos' <= dst.Length && -1 <= last' < dstPos'
    ensures status.More? ==> start < pos
    ensures Run(src, start, cw, 1, Decoder(old(dst[..]), dstPos, last, old(offset[..])))
         == Onward(src, status, pos, Decoder(dst[..], dstPos', last', offset[..]))
  {
    hide TakeLiteral, TakeReference, ReadReference;
    ghost var r := Run(src, start, cw, 1, Decoder(dst[..], dstPos, last, offset[..]));
    var cwbit: bv32 := 1;
    pos, dstPos', last' := start, dstPos, last;
    while pos < |src|
      invariant start <= pos && dstPos' <= dst.Length && -1 <= last' < dstPos' && cwbit != 0
      invariant Run(src, pos, cw, cwbit, Decoder(dst[..], dstPos', last', offset[..])) == r
      decreases |src| - pos
    {
      if cw & cwbit == 0 {
        status, dstPos', last' := DecodeLiteral(src, pos, dst, offset, dstPos', last');
        pos := pos + 1;
      } else {
        var ref := ReadReference(src, pos);
        if ref.None? {
          return Ended, pos, dstPos', last';
        }
        status, dstPos', last' := DecodeReference(src, ref.value, dst, offset, dstPos', last');
        pos := ref.value.next;
      }
      if !status.More? {
        return status, pos, dstPos', last';
      }
      cwbit := cwbit << 1;
      if cwbit == 0 {
        return More, pos, dstPos', last';
      }
    }
    return Ended, pos, dstPos', last';
  }

  /**
   The outer loop, over an output buffer and a table. The answer is the number of bytes written,
   or nothing when the stream is corrupt.
   */
  method DecompressInner(src: seq<byte>, dst: array<byte>, offset: array<nat>, start: nat)
    returns (written: Option<nat>)
    requires offset.Length == SLOTS && offset as object != dst
    modifies dst, offset
    ensures
      var r := Run(src, start, 0, 0, Decoder(old(dst[..]), 0, -1, old(offset[..])));
      if written.Some? then r.Finished? && r.decoder.dst == dst[..] && r.decoder.pos == written.value
      else r.Corrupt?
  {
    ghost var r := Run(src, start, 0, 0, Decoder(dst[..], 0, -1, offset[..]));
    var pos, dstPos, lastHashed := start, 0, -1;
    while pos + 4 <= |src|
      invariant 0 <= dstPos <= dst.Length && -1 <= lastHashed < dstPos
      invariant Run(src, pos, 0, 0, Decoder(dst[..], dstPos, lastHashed, offset[..])) == r
      decreases |src| - pos
    {
      var cw := U32(src[pos], src[pos + 1], src[pos + 2], src[pos + 3]);
      var status;
      status, pos, dstPos, lastHashed := DecodeGroup(src, pos + 4, cw, dst, offset, dstPos, lastHashed);
      match status {
        case More =>
        case Ended => return Some(dstPos);
        case Broken => return None;
      }
    }
    return Some(dstPos);
  }

  lemma {:induction false} TruncatedHeader(src: seq<byte>)
    ensures ReadHeader(src).None? <==> |src| < 2 || (|src| < 4 && src[1] >= 0x80)
  {
  }

  /** Exactly these bytes are refused: a truncated header, a declared size above the bound, or one that is overrun. */
  lemma {:induction false} RefusedIff(src: seq<byte>, maxOutput: nat)
    ensures Decoded(src, maxOutput).None? <==>
      || |src| < 2
      || (|src| < 4 && src[1] >= 0x80)
      || (var (size, start) := ReadHeader(src).value;
          size > maxOutput || ((start == 4 || size > 0) && Overruns(src, start, 0, 0, Start(size))))
  {
    hide Run, Overruns, U16;
    TruncatedHeader(src);
    if ReadHeader(src).Some? {
      var (size, start) := ReadHeader(src).value;
      CorruptIffOverrun(src, start, 0, 0, Start(size));
    }
  }

  /** Reads the header, refuses a declared size above the bound, decodes and truncates. */
  method DecompressBounded(src: seq<byte>, maxOutput: nat) returns (out: Option<seq<byte>>)
    ensures out == Decoded(src, maxOutput)
  {
    hide Run, U16;
    if |src| < 2 {
      return None;
    }
    var first := U16(src[0], src[1]);
    if first == 0 {
      return Some([]);
    }
    var outSize, pos := first, 2;
    if first >= 0x8000 {
      if |src| < 4 {
        return None;
      }
      outSize, pos := first - 0x8000 + 0x8000 * U16(src[2], src[3]), 4;
    }
    if outSize > maxOutput {
      return None;
    }
    var dst := new byte[outSize](i => 0);
    var offset := new nat[SLOTS](i => 0);
    assert Start(outSize) == Decoder(dst[..], 0, -1, offset[..]);
    var written := DecompressInner(src, dst, offset, pos);
    if written.None? {
      return None;
    }
    return Some(dst[..if written.value < outSize then written.value else outSize]);
  }
}
