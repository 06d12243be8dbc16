/** A SynLZ payload with a declared size and an optional run-length pass (src/compression.rs). */
module RleLz {
  import opened Bytes
  import opened SynLzFormat
  import C = SynLzCompressor
  import D = SynLzDecoder
  import SynLzRoundTrip

  // Variable-length numbers.

  function Pow128(k: nat): nat {
    if k == 0 then 1 else 128 * Pow128(k - 1)
  }

  /** The number read from byte `k` on: seven bits a byte, at most five bytes and 32 bits. */
  function ReadVarFrom(data: seq<byte>, k: nat): (r: Option<(nat, nat)>)
    requires k <= 5
    ensures r.Some? ==> k < r.value.1 <= |data|
    decreases 5 - k
  {
    if k == 5 || k >= |data| then None
    else
      var b := data[k] as nat;
      if k == 4 && b > 0x0F then None
      else if b < 128 then Some((b, k + 1))
      else
        var rest := ReadVarFrom(data, k + 1);
        if rest.None? then None else Some((b - 128 + 128 * rest.value.0, rest.value.1))
  }

  function ReadVar(data: seq<byte>): Option<(nat, nat)> {
    ReadVarFrom(data, 0)
  }

  /** The number whose low part is `value`, with `rest` above it. */
  function Above(value: nat, scale: nat, rest: Option<(nat, nat)>): Option<(nat, nat)> {
    if rest.None? then None else Some((value + scale * rest.value.0, rest.value.1))
  }

  lemma {:induction false} AboveStep(data: seq<byte>, k: nat, value: nat, scale: nat)
    requires k < 5 && k < |data| && 128 <= data[k] as nat && (k == 4 ==> data[k] as nat <= 0x0F)
    ensures Above(value, scale, ReadVarFrom(data, k))
      == Above(value + scale * (data[k] as nat - 128), 128 * scale, ReadVarFrom(data, k + 1))
  {
    var rest := ReadVarFrom(data, k + 1);
    if rest.Some? {
      Regroup(value, scale, data[k] as nat - 128, rest.value.0);
    }
  }

  lemma {:induction false} AboveEnd(data: seq<byte>, k: nat, value: nat, scale: nat)
    requires k <= 5
    ensures k == 5 || k >= |data| || (k == 4 && data[k] as nat > 0x0F) ==>
      Above(value, scale, ReadVarFrom(data, k)) == None
    ensures k < 5 && k < |data| && data[k] as nat < 128 && (k == 4 ==> data[k] as nat <= 0x0F) ==>
      Above(value, scale, ReadVarFrom(data, k)) == Some((value + scale * (data[k] as nat), k + 1))
  {
  }

  lemma {:induction false} AboveStart(r: Option<(nat, nat)>)
    ensures Above(0, 1, r) == r
  {
  }

  method ReadVarU32(data: seq<byte>) returns (r: Option<(nat, nat)>)
    ensures r == ReadVar(data)
  {
    hide ReadVarFrom, Above;
    var value, k, scale := 0, 0, 1;
    AboveStart(ReadVarFrom(data, 0));
    while k < 5
      invariant 0 <= k <= 5 && 0 <= value && 0 <= scale
      invariant ReadVar(data) == Above(value, scale, ReadVarFrom(data, k))
    {
      AboveEnd(data, k, value, scale);
      if k >= |data| {
        return None;
      }
      var b := data[k] as nat;
      if k == 4 && b > 0x0F {
        return None;
      }
      if b < 128 {
        return Some((value + scale * b, k + 1));
      }
      AboveStep(data, k, value, scale);
      value := value + scale * (b - 128);
      k, scale := k + 1, 128 * scale;
    }
    AboveEnd(data, k, value, scale);
    return None;
  }

  lemma {:induction false} Regroup(value: nat, scale: nat, low: nat, rest: nat)
    ensures value + scale * (low + 128 * rest) == (value + scale * low) + (128 * scale) * rest
  {
  }

  function WriteVar(n: nat): (r: seq<byte>)
    ensures r != []
    decreases n
  {
    if n < 128 then [ByteOf(n)] else [ByteOf(n % 128 + 128)] + WriteVar(n / 128)
  }

  /** A number of 32 bits is read back as it was written. */
  lemma {:induction false} ReadBack(prefix: seq<byte>, n: nat, rest: seq<byte>)
    requires |prefix| < 5 && n * Pow128(|prefix|) < 0x1_0000_0000
    ensures ReadVarFrom(prefix + WriteVar(n) + rest, |prefix|) == Some((n, |prefix| + |WriteVar(n)|))
    decreases n
  {
    hide ByteOf;
    var k := |prefix|;
    var data := prefix + WriteVar(n) + rest;
    assert data[k] == WriteVar(n)[0];
    Powers();
    if n >= 128 {
      var head := ByteOf(n % 128 + 128);
      assert n == 128 * (n / 128) + n % 128;
      Smaller(n, k);
      assert prefix + WriteVar(n) + rest == (prefix + [head]) + WriteVar(n / 128) + rest;
      ReadBack(prefix + [head], n / 128, rest);
    }
  }

  lemma {:induction false} Powers()
    ensures Pow128(0) == 1 && Pow128(1) == 128 && Pow128(2) == 16384 && Pow128(3) == 2097152 && Pow128(4) == 268435456
  {
    assert Pow128(2) == 128 * Pow128(1);
    assert Pow128(3) == 128 * Pow128(2);
    assert Pow128(4) == 128 * Pow128(3);
  }

  lemma {:induction false} Smaller(n: nat, k: nat)
    requires k < 5 && 128 <= n && n * Pow128(k) < 0x1_0000_0000
    ensures k < 4 && (n / 128) * Pow128(k + 1) < 0x1_0000_0000
  {
    Powers();
    assert (n / 128) * Pow128(k + 1) == (128 * (n / 128)) * Pow128(k);
    assert 128 * (n / 128) <= n;
    assert (128 * (n / 128)) * Pow128(k) <= n * Pow128(k);
  }

  // Run-length pass.

  const RLE_CONTROL: byte := 0x5A

  /** What the run-length text stands for, without any size limit. */
  function Expand(data: seq<byte>): Option<seq<byte>> {
    if data == [] then Some([])
    else if data[0] != RLE_CONTROL then
      var rest := Expand(data[1..]);
      if rest.None? then None else Some([data[0]] + rest.value)
    else if |data| < 3 || data[1] == 0 then None
    else
      var rest := Expand(data[3..]);
      if rest.None? then None else Some(seq(data[1] as nat, i => data[2]) + rest.value)
  }

  /** The limit checks on the way refuse exactly the texts whose expansion has another size. */
  function ExpandExact(data: seq<byte>, size: nat): Option<seq<byte>> {
    if Expand(data).Some? && |Expand(data).value| == size then Expand(data) else None
  }

  lemma {:induction false} ExpandGrows(data: seq<byte>)
    requires data != [] && Expand(data).Some?
    ensures |Expand(data).value| > 0
  {
    if data[0] == RLE_CONTROL {
      NotZero(data[1]);
    }
  }

  lemma {:induction false} NotZero(b: byte)
    requires b != 0
    ensures b as nat > 0
  {
  }

  /** The expansion of the whole, given what was written for the part before. */
  ghost function Joined(done: seq<byte>, rest: seq<byte>): Option<seq<byte>> {
    if Expand(rest).None? then None else Some(done + Expand(rest).value)
  }

  method RleDecompressExact(data: seq<byte>, size: nat) returns (r: Option<seq<byte>>)
    ensures r == ExpandExact(data, size)
  {
    var result: seq<byte> := [];
    var pos := 0;
    assert data[0..] == data;
    JoinedStart(data);
    while pos < |data|
      invariant 0 <= pos <= |data| && |result| <= size && Joined(result, data[pos..]) == Expand(data)
    {
      var rest := data[pos..];
      var value := data[pos];
      assert rest[0] == value;
      if value != RLE_CONTROL {
        if |result| == size {
          TooLong(result, rest, size);
          return None;
        }
        JoinedByte(result, rest);
        assert rest[1..] == data[pos + 1..];
        result := result + [value];
        pos := pos + 1;
      } else {
        if pos + 2 >= |data| {
          return None;
        }
        var count, repeated := data[pos + 1] as nat, data[pos + 2];
        assert rest[1] == data[pos + 1] && rest[2] == repeated;
        CountZero(data[pos + 1]);
        if count == 0 {
          return None;
        }
        JoinedRun(result, rest);
        if count > size - |result| {
          return None;
        }
        assert rest[3..] == data[pos + 3..];
        result := result + seq(count, i => repeated);
        pos := pos + 3;
      }
    }
    assert data[pos..] == [] && result + [] == result;
    if |result| == size {
      return Some(result);
    }
    return None;
  }

  lemma {:induction false} CountZero(b: byte)
    ensures b as nat == 0 <==> b == 0
  {
  }

  lemma {:induction false} JoinedStart(data: seq<byte>)
    ensures Joined([], data) == Expand(data)
  {
    if Expand(data).Some? {
      assert [] + Expand(data).value == Expand(data).value;
    }
  }

  lemma {:induction false} TooLong(done: seq<byte>, rest: seq<byte>, size: nat)
    requires rest != [] && |done| == size
    ensures Joined(done, rest).Some? ==> |Joined(done, rest).value| > size
  {
    if Expand(rest).Some? {
      ExpandGrows(rest);
    }
  }

  lemma {:induction false} JoinedByte(done: seq<byte>, rest: seq<byte>)
    requires rest != [] && rest[0] != RLE_CONTROL
    ensures Joined(done, rest) == Joined(done + [rest[0]], rest[1..])
  {
    if Expand(rest[1..]).Some? {
      var tail := Expand(rest[1..]).value;
      assert done + ([rest[0]] + tail) == (done + [rest[0]]) + tail;
    }
  }

  lemma {:induction false} JoinedRun(done: seq<byte>, rest: seq<byte>)
    requires |rest| >= 3 && rest[0] == RLE_CONTROL && rest[1] != 0
    ensures Joined(done, rest) == Joined(done + seq(rest[1] as nat, i => rest[2]), rest[3..])
    ensures Joined(done, rest).Some? ==> |Joined(done, rest).value| >= |done| + rest[1] as nat
  {
    if Expand(rest[3..]).Some? {
      var run, tail := seq(rest[1] as nat, i => rest[2]), Expand(rest[3..]).value;
      assert done + (run + tail) == (done + run) + tail;
    }
  }

  // The whole format.

  /** Declared size, mode byte, SynLZ payload; the result has the expected size or there is none. */
  function Unpacked(data: seq<byte>, expected: nat): (r: Option<seq<byte>>)
    ensures r.Some? ==> |r.value| == expected <= MAX_DECOMPRESSED_SIZE
  {
    var head := ReadVar(data);
    if expected > MAX_DECOMPRESSED_SIZE || head.None? || head.value.0 != expected || head.value.1 >= |data| then None
    else
      var text := D.Decoded(data[head.value.1 + 1..], expected);
      if text.None? then None
      else if data[head.value.1] == 0 then (if |text.value| == expected then text else None)
      else if data[head.value.1] == 1 then ExpandExact(text.value, expected)
      else None
  }

  /** A payload that was packed, with or without the run-length pass, is unpacked to what it stands for. */
  lemma {:induction false} UnpackBack(plain: seq<byte>, text: seq<byte>, rle: bool)
    requires |text| <= |plain| <= MAX_DECOMPRESSED_SIZE
    requires if rle then Expand(text) == Some(plain) else text == plain
    ensures Unpacked(WriteVar(|plain|) + [if rle then 1 else 0] + C.Compressed(text), |plain|) == Some(plain)
  {
    hide WriteVar, ReadVarFrom, D.Decoded, C.Compressed, Expand, Pow128;
    var mode: byte := if rle then 1 else 0;
    var head := WriteVar(|plain|);
    var data := head + [mode] + C.Compressed(text);
    Powers();
    ReadBack([], |plain|, [mode] + C.Compressed(text));
    assert [] + head + ([mode] + C.Compressed(text)) == data;
    assert data[|head|] == mode && data[|head| + 1..] == C.Compressed(text);
    DecodedWithin(text, |plain|);
  }

  /** The round trip under any limit that the text fits. */
  lemma {:induction false} DecodedWithin(text: seq<byte>, limit: nat)
    requires |text| <= limit <= MAX_DECOMPRESSED_SIZE
    ensures D.Decoded(C.Compressed(text), limit) == Some(text)
  {
    hide C.Compressed, D.Run, D.Start, D.ReadHeader;
    SynLzRoundTrip.RoundTripWithin(text);
    SynLzRoundTrip.CompressedHeader(text);
  }
}
