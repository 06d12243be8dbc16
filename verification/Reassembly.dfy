/** The receiving side of slicing: one datagram's blocks, and all datagrams in flight (src/protocol/slicing.rs). */
module Reassembly {
  import opened Bytes
  import opened Flags
  import opened Slicing

  /** Where a received block sits in the arrival-order buffer. */
  datatype Span = Span(offset: nat, len: nat, present: bool)

  datatype SlicedData = SlicedData(
    blocksCount: nat, spans: seq<Span>, payloads: seq<byte>, receivedCount: nat, ackFlags: Flags256,
    dupCount: nat, completionReturned: bool)

  function Fresh(maxBlockNum: nat): SlicedData {
    SlicedData(maxBlockNum + 1, seq(256, i => Span(0, 0, false)), [], 0, NoFlags(), 0, false)
  }

  function Present(spans: seq<Span>, n: nat): nat
    requires n <= |spans|
  {
    if n == 0 then 0 else Present(spans, n - 1) + (if spans[n - 1].present then 1 else 0)
  }

  function Stored(spans: seq<Span>, n: nat): nat
    requires n <= |spans|
  {
    if n == 0 then 0 else Stored(spans, n - 1) + (if spans[n - 1].present then spans[n - 1].len else 0)
  }

  ghost predicate Valid(d: SlicedData) {
    && 1 <= d.blocksCount <= 256 && |d.spans| == 256
    && d.receivedCount == Present(d.spans, d.blocksCount)
    && |d.payloads| == Stored(d.spans, d.blocksCount)
    && (forall i :: 0 <= i < 256 && d.spans[i].present ==>
          i < d.blocksCount && d.spans[i].offset + d.spans[i].len <= |d.payloads|)
  }

  /** The acknowledgement flags are the blocks received. */
  ghost predicate FlagsExact(d: SlicedData)
    requires |d.spans| == 256
  {
    forall i :: 0 <= i < 256 ==> (Has(d.ackFlags, i) <==> d.spans[i].present)
  }

  predicate Arrived(d: SlicedData, i: nat) {
    i < |d.spans| && d.spans[i].present
  }

  ghost function Block(d: SlicedData, i: nat): seq<byte>
    requires Valid(d) && Arrived(d, i)
  {
    d.payloads[d.spans[i].offset..d.spans[i].offset + d.spans[i].len]
  }

  predicate Complete(d: SlicedData) {
    d.receivedCount == d.blocksCount
  }

  ghost predicate AllArrived(d: SlicedData, n: nat) {
    forall i: nat :: i < n ==> Arrived(d, i)
  }

  lemma {:induction false} PresentBound(spans: seq<Span>, n: nat)
    requires n <= |spans|
    ensures Present(spans, n) <= n
    ensures Present(spans, n) == n <==> forall i :: 0 <= i < n ==> spans[i].present
  {
    if n > 0 {
      PresentBound(spans, n - 1);
    }
  }

  lemma {:induction false} PresentUpdate(spans: seq<Span>, n: nat, i: nat, s: Span)
    requires n <= |spans| && i < |spans| && !spans[i].present && s.present
    ensures Present(spans[i := s], n) == Present(spans, n) + (if i < n then 1 else 0)
    ensures Stored(spans[i := s], n) == Stored(spans, n) + (if i < n then s.len else 0)
  {
    if n > 0 {
      PresentUpdate(spans, n - 1, i, s);
    }
  }

  /** Complete means that every block has arrived. */
  lemma {:induction false} CompleteIffAll(d: SlicedData)
    requires Valid(d)
    ensures Complete(d) <==> AllArrived(d, d.blocksCount)
  {
    PresentBound(d.spans, d.blocksCount);
    if AllArrived(d, d.blocksCount) {
      forall i | 0 <= i < d.blocksCount ensures d.spans[i].present {
        assert Arrived(d, i);
      }
    }
  }

  function AddPiece(d: SlicedData, block: nat, payload: seq<byte>): (r: SlicedData)
    requires block < 256 && |d.spans| == 256
    ensures |r.spans| == 256
  {
    if block >= d.blocksCount then d
    else
      var d' := d.(ackFlags := Add(d.ackFlags, block));
      if d.spans[block].present then d'.(dupCount := if d.dupCount < 255 then d.dupCount + 1 else 255)
      else d'.(
        spans := d.spans[block := Span(|d.payloads|, |payload|, true)],
        payloads := d.payloads + payload,
        receivedCount := d.receivedCount + 1)
  }

  /** A piece adds its block unless the block is already there or out of range, and nothing else. */
  lemma {:induction false} AddPieceBlocks(d: SlicedData, block: nat, payload: seq<byte>)
    requires Valid(d) && block < 256
    ensures
      var d' := AddPiece(d, block, payload);
      && Valid(d') && d'.blocksCount == d.blocksCount
      && (forall i: nat {:trigger Arrived(d', i)} ::
            Arrived(d', i) <==> Arrived(d, i) || (i == block && block < d.blocksCount))
      && (forall i: nat {:trigger Block(d', i)} :: Arrived(d, i) ==> Block(d', i) == Block(d, i))
      && (block < d.blocksCount && !Arrived(d, block) ==> Block(d', block) == payload)
  {
    hide Add;
    var d' := AddPiece(d, block, payload);
    if block < d.blocksCount && !d.spans[block].present {
      PresentUpdate(d.spans, d.blocksCount, block, Span(|d.payloads|, |payload|, true));
      assert d'.payloads[|d.payloads|..|d.payloads| + |payload|] == payload;
      forall i: nat | Arrived(d, i) ensures Block(d', i) == Block(d, i) {
      }
    }
  }

  lemma {:induction false} AddPieceFlags(d: SlicedData, block: nat, payload: seq<byte>)
    requires Valid(d) && FlagsExact(d) && block < 256
    ensures FlagsExact(AddPiece(d, block, payload))
  {
    hide Has, Add;
    forall i | 0 <= i < 256 && block < d.blocksCount
      ensures Has(Add(d.ackFlags, block), i) <==> i == block || Has(d.ackFlags, i)
    {
      AddHas(d.ackFlags, block, i);
    }
  }

  // Putting the blocks together.

  ghost function Join(d: SlicedData, n: nat): seq<byte>
    requires Valid(d) && AllArrived(d, n)
  {
    if n == 0 then [] else Join(d, n - 1) + (assert Arrived(d, n - 1); Block(d, n - 1))
  }

  lemma {:induction false} JoinOne(d: SlicedData, n: nat)
    requires Valid(d) && AllArrived(d, n) && 0 < n
    ensures Arrived(d, n - 1) && Join(d, n) == Join(d, n - 1) + Block(d, n - 1)
  {
    hide Valid, Block;
    assert Arrived(d, n - 1);
  }

  lemma {:induction false} JoinNone(d: SlicedData)
    requires Valid(d)
    ensures Join(d, 0) == []
  {
  }

  lemma {:induction false} StoredOne(spans: seq<Span>, n: nat)
    requires 0 < n <= |spans|
    ensures Stored(spans, n) == Stored(spans, n - 1) + (if spans[n - 1].present then spans[n - 1].len else 0)
  {
  }

  lemma {:induction false} StoredNone(spans: seq<Span>)
    ensures Stored(spans, 0) == 0
  {
  }

  /** Where a block that has arrived is kept. */
  lemma {:induction false} BlockIs(d: SlicedData, i: nat)
    requires Valid(d) && Arrived(d, i)
    ensures i < d.blocksCount && d.spans[i].offset + d.spans[i].len <= |d.payloads|
    ensures Block(d, i) == d.payloads[d.spans[i].offset..d.spans[i].offset + d.spans[i].len]
  {
  }

  /** The command byte and the data: block 0 starts with the command unless it is empty. */
  ghost function Message(d: SlicedData): (byte, seq<byte>)
    requires Valid(d) && AllArrived(d, d.blocksCount)
  {
    var all := Join(d, d.blocksCount);
    assert Arrived(d, 0);
    if Block(d, 0) == [] then (0, all)
    else FirstOfJoin(d, d.blocksCount); (all[0], all[1..])
  }

  lemma {:induction false} FirstOfJoin(d: SlicedData, n: nat)
    requires Valid(d) && AllArrived(d, n) && 0 < n && Arrived(d, 0) && Block(d, 0) != []
    ensures Join(d, n) != [] && Join(d, n)[0] == Block(d, 0)[0]
  {
    if n == 1 {
      assert Join(d, 1) == Join(d, 0) + Block(d, 0) == Block(d, 0);
    } else {
      FirstOfJoin(d, n - 1);
    }
  }

  /** Each span starts where the spans before it end. */
  ghost predicate InOrder(spans: seq<Span>, n: nat)
    requires n <= |spans|
  {
    forall i :: 0 <= i < n ==> spans[i].offset == Stored(spans, i)
  }

  lemma {:induction false} InOrderJoin(d: SlicedData, n: nat)
    requires Valid(d) && n <= d.blocksCount && InOrder(d.spans, n) && AllArrived(d, n)
    ensures Stored(d.spans, n) <= |d.payloads| && Join(d, n) == d.payloads[..Stored(d.spans, n)]
  {
    hide Stored, Join, Block, Present;
    if n == 0 {
      JoinNone(d);
      StoredNone(d.spans);
    } else {
      InOrderJoin(d, n - 1);
      JoinOne(d, n);
      BlockIs(d, n - 1);
      var s := d.spans[n - 1];
      StoredOne(d.spans, n);
      assert s.offset == Stored(d.spans, n - 1);
      TakeMore(d.payloads, s.offset, s.offset + s.len);
    }
  }

  lemma {:induction false} TakeMore(b: seq<byte>, from: nat, to: nat)
    requires from <= to <= |b|
    ensures b[..to] == b[..from] + b[from..to]
  {
  }

  method CheckOrder(d: SlicedData) returns (ordered: bool)
    requires Valid(d) && AllArrived(d, d.blocksCount)
    ensures ordered <==> InOrder(d.spans, d.blocksCount)
  {
    hide Stored, Present;
    var offset := 0;
    StoredNone(d.spans);
    for i := 0 to d.blocksCount
      invariant offset == Stored(d.spans, i) && InOrder(d.spans, i)
    {
      assert Arrived(d, i);
      if d.spans[i].offset != offset {
        return false;
      }
      StoredOne(d.spans, i + 1);
      offset := offset + d.spans[i].len;
    }
    return true;
  }

  /** Blocks in block order, without the first `skip` bytes. */
  method JoinInOrder(d: SlicedData, skip: nat) returns (result: seq<byte>)
    requires Valid(d) && AllArrived(d, d.blocksCount)
    requires skip <= d.spans[0].len
    ensures skip <= |Join(d, d.blocksCount)| && result == Join(d, d.blocksCount)[skip..]
  {
    hide Stored, Join, Block, Present;
    result := [];
    for i := 0 to d.blocksCount
      invariant i == 0 ==> result == []
      invariant i > 0 ==> skip <= |Join(d, i)| && result == Join(d, i)[skip..]
    {
      JoinOne(d, i + 1);
      BlockIs(d, i);
      var s := d.spans[i];
      result := result + d.payloads[s.offset + (if i == 0 then skip else 0)..s.offset + s.len];
      if i == 0 {
        JoinNone(d);
        assert Join(d, 1) == Block(d, 0);
      } else {
        DropFront(Join(d, i), Block(d, i), skip);
      }
    }
  }

  lemma {:induction false} DropFront(a: seq<byte>, b: seq<byte>, n: nat)
    requires n <= |a|
    ensures (a + b)[n..] == a[n..] + b
  {
  }

  /** What assembling gives: nothing until every block is there. */
  ghost function Assembled(d: SlicedData): Option<(byte, seq<byte>)> {
    if Valid(d) && AllArrived(d, d.blocksCount) then Some(Message(d)) else None
  }

  /** The buffer is handed over as it stands when the blocks arrived in order, and is rebuilt otherwise. */
  method Assemble(d: SlicedData) returns (r: Option<(byte, seq<byte>)>)
    requires Valid(d)
    ensures r == Assembled(d) && (r.Some? <==> Complete(d))
  {
    CompleteIffAll(d);
    if !Complete(d) {
      return None;
    }
    assert Arrived(d, 0);
    var first := d.spans[0];
    var cmd: byte := if first.len == 0 then 0 else d.payloads[first.offset];
    var skip := if first.len == 0 then 0 else 1;
    if skip == 1 {
      FirstOfJoin(d, d.blocksCount);
    }
    var ordered := CheckOrder(d);
    if ordered {
      InOrderJoin(d, d.blocksCount);
      assert d.payloads[..|d.payloads|] == d.payloads;
      return Some((cmd, d.payloads[skip..]));
    }
    var result := JoinInOrder(d, skip);
    return Some((cmd, result));
  }

  // Blocks cut from one command.

  /** Every block that has arrived is the matching chunk of `whole`. */
  ghost predicate FromWhole(d: SlicedData, whole: seq<byte>, pmtu: nat) {
    && Valid(d) && 0 < pmtu && d.blocksCount == BlockCount(|whole|, pmtu)
    && forall i: nat :: Arrived(d, i) ==> i * pmtu <= |whole| && Block(d, i) == Chunk(whole, pmtu, i)
  }

  lemma {:induction false} JoinIsWhole(d: SlicedData, whole: seq<byte>, pmtu: nat, n: nat)
    requires FromWhole(d, whole, pmtu) && n <= d.blocksCount && AllArrived(d, n)
    ensures Join(d, n) == JoinChunks(whole, pmtu, n)
  {
    if n > 0 {
      JoinIsWhole(d, whole, pmtu, n - 1);
      assert Arrived(d, n - 1);
    }
  }

  /** Once all have arrived, in whatever order, the message is the command that was cut up. */
  lemma {:induction false} MessageIsWhole(d: SlicedData, cmd: byte, data: seq<byte>, pmtu: nat)
    requires FromWhole(d, [cmd] + data, pmtu) && AllArrived(d, d.blocksCount)
    ensures Message(d) == (cmd, data)
  {
    var whole := [cmd] + data;
    JoinIsWhole(d, whole, pmtu, d.blocksCount);
    JoinChunksPrefix(whole, pmtu, d.blocksCount);
    assert Arrived(d, 0) && Block(d, 0) == Chunk(whole, pmtu, 0);
    assert whole[..|whole|] == whole && whole[1..] == data;
  }

  lemma {:induction false} AddPieceFromWhole(d: SlicedData, whole: seq<byte>, pmtu: nat, block: nat)
    requires FromWhole(d, whole, pmtu) && block < d.blocksCount
    requires block * pmtu <= |whole|
    ensures FromWhole(AddPiece(d, block, Chunk(whole, pmtu, block)), whole, pmtu)
  {
    AddPieceBlocks(d, block, Chunk(whole, pmtu, block));
    var d' := AddPiece(d, block, Chunk(whole, pmtu, block));
    forall i: nat | Arrived(d', i)
      ensures i * pmtu <= |whole| && Block(d', i) == Chunk(whole, pmtu, i)
    {
      if Arrived(d, i) {
        assert Block(d', i) == Block(d, i);
      }
    }
  }
}
