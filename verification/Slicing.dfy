/**
 Slicing one command into datagram blocks and putting the blocks together again, in whatever order
 and however often they arrive (src/client/protocol_sliced_send.rs, src/protocol/slicing.rs).
 */
module Slicing {
  import opened Bytes

  const SLICE_HEADER_SIZE: nat := 4

  // Sender.

  /** Blocks needed for `size` bytes. */
  function BlockCount(size: nat, pmtu: nat): (n: nat)
    requires 0 < pmtu
    ensures size <= n * pmtu && (0 < size ==> (n - 1) * pmtu < size)
  {
    (size + pmtu - 1) / pmtu
  }

  /** The `i`-th stretch of at most `pmtu` bytes. */
  function Chunk(whole: seq<byte>, pmtu: nat, i: nat): (r: seq<byte>)
    requires i * pmtu <= |whole|
    ensures |r| <= pmtu
  {
    whole[i * pmtu..if (i + 1) * pmtu <= |whole| then (i + 1) * pmtu else |whole|]
  }

  function SliceHeader(datagramNum: nat, block: nat, maxBlock: nat): (r: seq<byte>)
    requires datagramNum < 0x1_0000
    ensures |r| == SLICE_HEADER_SIZE
  {
    U16Bytes(datagramNum) + [ByteOf(block % 256), ByteOf(maxBlock % 256)]
  }

  lemma {:induction false} ChunkInside(whole: seq<byte>, pmtu: nat, i: nat)
    requires 0 < pmtu && i < BlockCount(|whole|, pmtu)
    ensures i * pmtu <= |whole|
  {
    assert i * pmtu <= (BlockCount(|whole|, pmtu) - 1) * pmtu;
  }

  /** The slices of a command: header plus the block's share of the command byte and its data. */
  ghost predicate AreSlices(slices: seq<seq<byte>>, whole: seq<byte>, pmtu: nat, datagramNum: nat) {
    && 0 < pmtu && datagramNum < 0x1_0000
    && |slices| == BlockCount(|whole|, pmtu)
    && forall i :: 0 <= i < |slices| ==>
         i * pmtu <= |whole| && slices[i] == SliceHeader(datagramNum, i, |slices| - 1) + Chunk(whole, pmtu, i)
  }

  /** How much of the data the first `block` blocks take; the command byte goes into block 0. */
  ghost function DataBefore(size: nat, pmtu: nat, block: nat): int {
    if block == 0 then 0 else if block * pmtu <= size + 1 then block * pmtu - 1 else size
  }

  /** The share of one block, cut from the data that is left. */
  method BlockBody(wireCmd: byte, wireData: seq<byte>, pmtu: nat, block: nat, dataPos: nat)
    returns (body: seq<byte>, next: nat)
    requires 0 < pmtu && block * pmtu <= |wireData| + 1 && dataPos == DataBefore(|wireData|, pmtu, block)
    ensures body == Chunk([wireCmd] + wireData, pmtu, block)
    ensures next == DataBefore(|wireData|, pmtu, block + 1) && next <= |wireData|
  {
    hide Chunk, DataBefore;
    if block == 0 {
      FirstShare(wireCmd, wireData, pmtu);
      var size := if pmtu - 1 < |wireData| then pmtu - 1 else |wireData|;
      body, next := [wireCmd] + wireData[dataPos..dataPos + size], dataPos + size;
    } else {
      LaterShare(wireCmd, wireData, pmtu, block, block * pmtu);
      var size := if pmtu < |wireData| - dataPos then pmtu else |wireData| - dataPos;
      body, next := wireData[dataPos..dataPos + size], dataPos + size;
    }
  }

  lemma {:induction false} FirstShare(cmd: byte, data: seq<byte>, pmtu: nat)
    requires 0 < pmtu
    ensures
      var size := if pmtu - 1 < |data| then pmtu - 1 else |data|;
      && Chunk([cmd] + data, pmtu, 0) == [cmd] + data[0..size]
      && DataBefore(|data|, pmtu, 0) == 0 && DataBefore(|data|, pmtu, 1) == size
  {
    CutFirst(cmd, data, if pmtu <= |data| + 1 then pmtu else |data| + 1);
  }

  lemma {:induction false} LaterShare(cmd: byte, data: seq<byte>, pmtu: nat, block: nat, from: nat)
    requires 0 < pmtu && 0 < block && from == block * pmtu && from <= |data| + 1
    ensures
      var size := if pmtu < |data| - (from - 1) then pmtu else |data| - (from - 1);
      && 1 <= from && DataBefore(|data|, pmtu, block) == from - 1
      && Chunk([cmd] + data, pmtu, block) == data[from - 1..from - 1 + size]
      && DataBefore(|data|, pmtu, block + 1) == from - 1 + size
  {
    NextMultiple(block, pmtu);
    CutLater(cmd, data, from, if from + pmtu <= |data| + 1 then from + pmtu else |data| + 1);
  }

  lemma {:induction false} NextMultiple(n: nat, k: nat)
    requires 0 < n
    ensures k <= n * k && (n + 1) * k == n * k + k
  {
  }

  lemma {:induction false} CutFirst(first: byte, rest: seq<byte>, to: nat)
    requires 1 <= to <= |rest| + 1
    ensures ([first] + rest)[0..to] == [first] + rest[0..to - 1]
  {
  }

  lemma {:induction false} CutLater(first: byte, rest: seq<byte>, from: nat, to: nat)
    requires 1 <= from <= to <= |rest| + 1
    ensures ([first] + rest)[from..to] == rest[from - 1..to - 1]
  {
  }

  method MakeSlices(wireCmd: byte, wireData: seq<byte>, pmtu: nat, datagramNum: nat) returns (slices: seq<seq<byte>>)
    requires 0 < pmtu && datagramNum < 0x1_0000
    ensures AreSlices(slices, [wireCmd] + wireData, pmtu, datagramNum)
  {
    hide SliceHeader, Chunk, DataBefore;
    ghost var whole := [wireCmd] + wireData;
    var count := (|wireData| + 1 + pmtu - 1) / pmtu;
    assert count == BlockCount(|whole|, pmtu);
    var dataPos := 0;
    NoDataBefore(|wireData|, pmtu);
    slices := [];
    for block := 0 to count
      invariant |slices| == block && dataPos == DataBefore(|wireData|, pmtu, block)
      invariant forall i :: 0 <= i < block ==>
        i * pmtu <= |whole| && slices[i] == SliceHeader(datagramNum, i, count - 1) + Chunk(whole, pmtu, i)
    {
      ChunkInside(whole, pmtu, block);
      var body;
      body, dataPos := BlockBody(wireCmd, wireData, pmtu, block, dataPos);
      slices := slices + [SliceHeader(datagramNum, block, count - 1) + body];
    }
  }

  lemma {:induction false} NoDataBefore(size: nat, pmtu: nat)
    ensures DataBefore(size, pmtu, 0) == 0
  {
  }

  /** Joining the chunks gives the whole back. */
  ghost function JoinChunks(whole: seq<byte>, pmtu: nat, n: nat): seq<byte>
    requires 0 < pmtu && n <= BlockCount(|whole|, pmtu)
  {
    if n == 0 then []
    else ChunkInside(whole, pmtu, n - 1); JoinChunks(whole, pmtu, n - 1) + Chunk(whole, pmtu, n - 1)
  }

  lemma {:induction false} JoinChunksPrefix(whole: seq<byte>, pmtu: nat, n: nat)
    requires 0 < pmtu && n <= BlockCount(|whole|, pmtu)
    ensures JoinChunks(whole, pmtu, n) == whole[..if n * pmtu <= |whole| then n * pmtu else |whole|]
  {
    hide BlockCount, Chunk;
    if n > 0 {
      ChunkInside(whole, pmtu, n - 1);
      JoinChunksPrefix(whole, pmtu, n - 1);
      OneMoreChunk(whole, pmtu, n - 1, (n - 1) * pmtu);
    }
  }

  lemma {:induction false} OneMoreChunk(whole: seq<byte>, pmtu: nat, i: nat, from: nat)
    requires from == i * pmtu && from <= |whole|
    ensures (i + 1) * pmtu == from + pmtu
    ensures whole[..from] + Chunk(whole, pmtu, i) == whole[..if from + pmtu <= |whole| then from + pmtu else |whole|]
  {
    assert (i + 1) * pmtu == from + pmtu;
  }
}
