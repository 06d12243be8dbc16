/**
 Runs of the receiving side: blocks of one command amid any other traffic, repeated and reordered at
 will, within the 9 seconds a datagram number stays reserved.
 */
module ExactlyOnce {
  import opened Bytes
  import opened Numbers
  import opened Flags
  import opened Slicing
  import opened Reassembly
  import opened SlicedReceiving

  /** An accepted packet: its time and, when it carries a slice, the bytes after the packet header. */
  datatype Event = Event(now: int, slice: Option<seq<byte>>)

  /** One packet of a run, with the state it leaves and the reply it draws. */
  datatype Entry = Entry(event: Event, after: Receiver, reply: Option<Reply>)

  function SliceOf(e: Event): (s: Option<Slice>)
    ensures s.Some? ==> s.value.num < 0x1_0000 && s.value.block < 256 && s.value.maxBlock < 256
  {
    if e.slice.None? then None else ParseSlice(e.slice.value)
  }

  ghost predicate Outcome(mid: Receiver, e: Entry)
    requires Inv(mid)
  {
    match SliceOf(e.event)
    case None => e.after == mid && e.reply == None
    case Some(s) => e.after == Handled(mid, s).0 && e.reply == Some(Handled(mid, s).1)
  }

  /** Each packet sets the clock, cleans up, and then handles its slice. */
  ghost predicate Step(r: Receiver, e: Entry) {
    exists mid :: Inv(mid) && Cleaned(r.(lastOnline := e.event.now), mid) && Outcome(mid, e)
  }

  ghost predicate IsRun(r: Receiver, run: seq<Entry>)
    decreases |run|
  {
    run != [] ==> Step(r, run[0]) && IsRun(run[0].after, run[1..])
  }

  // One command among the traffic.

  datatype Sliced = Sliced(num: nat, cmd: byte, data: seq<byte>, pmtu: nat) {
    ghost predicate Valid() {
      0 < pmtu && num < 0x1_0000 && BlockCount(|data| + 1, pmtu) <= 256
    }

    function Whole(): seq<byte> {
      [cmd] + data
    }

    function Count(): nat
      requires 0 < pmtu
    {
      BlockCount(|data| + 1, pmtu)
    }

    ghost predicate Covered(got: set<nat>)
      requires 0 < pmtu
    {
      forall i :: 0 <= i < Count() ==> i in got
    }

    /** The bytes the sender makes of block `i`. */
    ghost predicate IsBlock(bytes: seq<byte>, i: nat)
      requires Valid()
    {
      && i < Count() && i * pmtu <= |Whole()|
      && bytes == SliceHeader(num, i, Count() - 1) + Chunk(Whole(), pmtu, i)
    }

    /** Packets that bear this number carry blocks of this command. */
    ghost predicate Genuine(e: Event)
      requires Valid()
    {
      SliceOf(e).Some? && SliceOf(e).value.num == num ==> IsBlock(e.slice.value, SliceOf(e).value.block)
    }

    ghost function BlockIn(e: Event): set<nat> {
      if SliceOf(e).Some? && SliceOf(e).value.num == num then {SliceOf(e).value.block} else {}
    }

    ghost function BlocksIn(run: seq<Entry>): set<nat> {
      if run == [] then {} else BlockIn(run[0].event) + BlocksIn(run[1..])
    }

    /** What was handed on under this number, in order. */
    ghost function Deliveries(run: seq<Entry>): seq<Delivery> {
      if run == [] then [] else DeliveryIn(run[0]) + Deliveries(run[1..])
    }

    ghost function DeliveryIn(e: Entry): seq<Delivery> {
      if e.reply.Some? && e.reply.value.delivery.Some? && e.reply.value.delivery.value.num == num
      then [e.reply.value.delivery.value] else []
    }
  }

  /** Every packet lies within the reservation that began at `base`. */
  ghost predicate Within(c: Sliced, run: seq<Entry>, base: int)
    requires c.Valid()
  {
    forall j :: 0 <= j < |run| ==> c.Genuine(run[j].event) && Abs(run[j].event.now - base) <= TIME_WHEN_CAN_RECEIVE_RPT
  }

  lemma {:induction false} BlockParses(c: Sliced, bytes: seq<byte>, i: nat)
    requires c.Valid() && c.IsBlock(bytes, i)
    ensures ParseSlice(bytes) == Some(Slice(c.num, i, c.Count() - 1, Chunk(c.Whole(), c.pmtu, i)))
  {
    hide ParseSlice, SliceHeader, Chunk;
    HeaderParses(c.num, i, c.Count() - 1, Chunk(c.Whole(), c.pmtu, i));
  }

  // The two stages of a reserved number.

  /** The blocks in `got` have arrived and some are missing. */
  ghost predicate Collecting(r: Receiver, c: Sliced, base: int, got: set<nat>)
    requires c.Valid()
  {
    && Inv(r) && r.lastRecvd[SlotOf(c.num)] == base && c.num in r.receiving
    && FromWhole(r.receiving[c.num], c.Whole(), c.pmtu)
    && forall i: nat :: Arrived(r.receiving[c.num], i) <==> i in got
  }

  /** Nothing is being collected under this number. */
  ghost predicate Closed(r: Receiver, c: Sliced, base: int) {
    Inv(r) && r.lastRecvd[SlotOf(c.num)] == base && c.num !in r.receiving
  }

  lemma {:induction false} CleanedKeeps(r: Receiver, mid: Receiver, now: int, slot: nat)
    requires Inv(r) && Inv(mid) && Cleaned(r.(lastOnline := now), mid) && slot < LAST_RECVD_BUF_SIZE
    requires Abs(now - r.lastRecvd[slot]) <= TIME_WHEN_CAN_RECEIVE_RPT
    ensures mid.lastOnline == now && mid.lastRecvd[slot] == r.lastRecvd[slot]
    ensures forall k :: SlotOf(k) == slot ==>
      (k in mid.receiving <==> k in r.receiving) && (k in r.receiving ==> mid.receiving[k] == r.receiving[k])
  {
    hide Sound, SlotOf, SlotUsed;
    var r1 := r.(lastOnline := now);
    assert CleanupDue(r1) ==> SlotMarked(r1, mid.(lastCleaned := r1.lastCleaned), r.receiving.Keys, slot);
  }

  /** A slice of another number leaves a reserved number alone. */
  lemma {:induction false} OtherSlice(mid: Receiver, s: Slice, num: nat)
    requires Inv(mid) && s.block < 256 && s.maxBlock < 256 && s.num != num
    requires !Stale(mid, SlotOf(num))
    ensures
      var r := Handled(mid, s).0;
      && Inv(r) && r.lastRecvd[SlotOf(num)] == mid.lastRecvd[SlotOf(num)]
      && (num in r.receiving <==> num in mid.receiving)
      && (num in r.receiving ==> r.receiving[num] == mid.receiving[num])
    ensures Handled(mid, s).1.delivery.Some? ==> Handled(mid, s).1.delivery.value.num != num
  {
    hide Sound, SlotOf, AddPiece, Assembled, Complete, Fresh;
    HandledKeepsInv(mid, s);
  }

  /** A closed number stays closed: full acknowledgement, no delivery. */
  lemma {:induction false} ClosedOutcome(mid: Receiver, e: Entry, c: Sliced, base: int)
    requires c.Valid() && Closed(mid, c, base) && Outcome(mid, e) && !Stale(mid, SlotOf(c.num))
    ensures Closed(e.after, c, base) && c.DeliveryIn(e) == []
    ensures c.BlockIn(e.event) != {} ==> e.reply.Some? && e.reply.value.ack == AllFlags()
  {
    hide Sound, SlotOf, AddPiece, Assembled, Complete, Fresh, AllFlags, ParseSlice;
    if SliceOf(e.event).Some? {
      var s := SliceOf(e.event).value;
      if s.num != c.num {
        OtherSlice(mid, s, c.num);
      }
    }
  }

  lemma {:induction false} ClosedStep(r: Receiver, e: Entry, c: Sliced, base: int)
    requires c.Valid() && Closed(r, c, base) && Step(r, e)
    requires Abs(e.event.now - base) <= TIME_WHEN_CAN_RECEIVE_RPT
    ensures Closed(e.after, c, base) && c.DeliveryIn(e) == []
    ensures c.BlockIn(e.event) != {} ==> e.reply.Some? && e.reply.value.ack == AllFlags()
  {
    hide Sound, SlotOf, Outcome, AllFlags;
    var mid :| Inv(mid) && Cleaned(r.(lastOnline := e.event.now), mid) && Outcome(mid, e);
    CleanedKeeps(r, mid, e.event.now, SlotOf(c.num));
    ClosedOutcome(mid, e, c, base);
  }

  /** A block of the command joins the others; the one that was missing last delivers the command. */
  lemma {:induction false} CollectBlock(mid: Receiver, s: Slice, c: Sliced, base: int, got: set<nat>)
    requires c.Valid() && Collecting(mid, c, base, got) && !Stale(mid, SlotOf(c.num))
    requires s.num == c.num && s.block < c.Count() && s.maxBlock == c.Count() - 1
    requires s.block * c.pmtu <= |c.Whole()| && s.body == Chunk(c.Whole(), c.pmtu, s.block)
    ensures
      var (r, reply) := Handled(mid, s);
      && (forall i :: 0 <= i < 256 ==> (Has(reply.ack, i) <==> i in got + {s.block}))
      && if c.Covered(got + {s.block}) then Closed(r, c, base) && reply.delivery == Some(Delivery(c.num, c.cmd, c.data))
         else Collecting(r, c, base, got + {s.block}) && reply.delivery == None
  {
    hide SlotOf, Chunk, Has, Add;
    var d := mid.receiving[c.num];
    assert Opened(mid, s.num, s.maxBlock) == mid;
    var d' := AddPiece(d, s.block, s.body);
    AddPieceBlocks(d, s.block, s.body);
    AddPieceFromWhole(d, c.Whole(), c.pmtu, s.block);
    PieceKeepsSound(d, s.block, s.body);
    HandledKeepsInv(mid, s);
    ArrivedAre(d', got + {s.block});
    CoveredIffArrived(d', c, got + {s.block});
    if Complete(d') {
      MessageIsWhole(d', c.cmd, c.data, c.pmtu);
    }
  }

  lemma {:induction false} ArrivedAre(d: SlicedData, got: set<nat>)
    requires Valid(d) && FlagsExact(d) && forall i: nat :: Arrived(d, i) <==> i in got
    ensures forall i :: 0 <= i < 256 ==> (Has(d.ackFlags, i) <==> i in got)
  {
    hide Has;
    forall i | 0 <= i < 256 ensures Has(d.ackFlags, i) <==> i in got {
      assert Arrived(d, i) <==> i in got;
    }
  }

  lemma {:induction false} CoveredIffArrived(d: SlicedData, c: Sliced, got: set<nat>)
    requires c.Valid() && d.blocksCount == c.Count() && forall i: nat :: Arrived(d, i) <==> i in got
    ensures c.Covered(got) <==> AllArrived(d, d.blocksCount)
  {
    if c.Covered(got) {
      forall i: nat | i < d.blocksCount ensures Arrived(d, i) {
        assert i in got;
      }
    }
    if AllArrived(d, d.blocksCount) {
      forall i | 0 <= i < c.Count() ensures i in got {
        assert Arrived(d, i);
      }
    }
  }

  /** One packet while blocks are missing. */
  lemma {:induction false} CollectStep(r: Receiver, e: Entry, c: Sliced, base: int, got: set<nat>)
    requires c.Valid() && Collecting(r, c, base, got) && Step(r, e) && c.Genuine(e.event) && !c.Covered(got)
    requires Abs(e.event.now - base) <= TIME_WHEN_CAN_RECEIVE_RPT
    ensures c.BlockIn(e.event) != {} ==>
      e.reply.Some? && forall i :: 0 <= i < 256 ==> (Has(e.reply.value.ack, i) <==> i in got + c.BlockIn(e.event))
    ensures if c.Covered(got + c.BlockIn(e.event))
      then Closed(e.after, c, base) && c.DeliveryIn(e) == [Delivery(c.num, c.cmd, c.data)]
      else Collecting(e.after, c, base, got + c.BlockIn(e.event)) && c.DeliveryIn(e) == []
  {
    hide Sound, SlotOf, AddPiece, Assembled, Complete, Fresh, ParseSlice, Has, Handled, Chunk, FromWhole,
        Sliced.Covered, Sliced.IsBlock;
    var mid :| Inv(mid) && Cleaned(r.(lastOnline := e.event.now), mid) && Outcome(mid, e);
    CleanedKeeps(r, mid, e.event.now, SlotOf(c.num));
    assert Collecting(mid, c, base, got);
    if SliceOf(e.event).Some? {
      var s := SliceOf(e.event).value;
      if s.num == c.num {
        GenuineSlice(c, e.event);
        CollectBlock(mid, s, c, base, got);
      } else {
        OtherSlice(mid, s, c.num);
        assert got + c.BlockIn(e.event) == got;
      }
    } else {
      assert got + c.BlockIn(e.event) == got;
    }
  }

  lemma {:induction false} GenuineSlice(c: Sliced, e: Event)
    requires c.Valid() && c.Genuine(e) && SliceOf(e).Some? && SliceOf(e).value.num == c.num
    ensures
      var s := SliceOf(e).value;
      && s.block < c.Count() && s.maxBlock == c.Count() - 1
      && s.block * c.pmtu <= |c.Whole()| && s.body == Chunk(c.Whole(), c.pmtu, s.block)
  {
    hide ParseSlice, Chunk;
    BlockParses(c, e.slice.value, SliceOf(e).value.block);
  }

  lemma {:induction false} ClosedRun(r: Receiver, run: seq<Entry>, c: Sliced, base: int)
    requires c.Valid() && Closed(r, c, base) && IsRun(r, run) && Within(c, run, base)
    ensures c.Deliveries(run) == []
    ensures forall j :: 0 <= j < |run| && c.BlockIn(run[j].event) != {} ==>
      run[j].reply.Some? && run[j].reply.value.ack == AllFlags()
    decreases |run|
  {
    hide Closed, Step, Sliced.Genuine, Sliced.BlockIn, Sliced.DeliveryIn;
    if run != [] {
      assert Closed(r, c, base);
      ClosedStep(r, run[0], c, base);
      ClosedRun(run[0].after, run[1..], c, base);
      forall j | 0 <= j < |run| && c.BlockIn(run[j].event) != {}
        ensures run[j].reply.Some? && run[j].reply.value.ack == AllFlags()
      {
        if j > 0 {
          assert run[j] == run[1..][j - 1];
        }
      }
    }
  }

  /** From any stage of collecting: delivered once if the missing blocks come, and not at all otherwise. */
  lemma {:induction false} CollectRun(r: Receiver, run: seq<Entry>, c: Sliced, base: int, got: set<nat>)
    requires c.Valid() && Collecting(r, c, base, got) && !c.Covered(got) && IsRun(r, run) && Within(c, run, base)
    ensures c.Deliveries(run) == if c.Covered(got + c.BlocksIn(run)) then [Delivery(c.num, c.cmd, c.data)] else []
    decreases |run|
  {
    hide Collecting, Closed, Step, Sliced.Genuine, Sliced.BlockIn, Sliced.DeliveryIn;
    if run == [] {
      assert got + c.BlocksIn(run) == got;
    } else {
      var e := run[0];
      CollectStep(r, e, c, base, got);
      assert got + c.BlocksIn(run) == got + c.BlockIn(e.event) + c.BlocksIn(run[1..]);
      if c.Covered(got + c.BlockIn(e.event)) {
        ClosedRun(e.after, run[1..], c, base);
      } else {
        CollectRun(e.after, run[1..], c, base, got + c.BlockIn(e.event));
      }
    }
  }

  // The first block.

  /**
   Whether a packet at `now` may begin datagram `num`: its slot has been quiet for 9 seconds, and no
   datagram left over in that slot is about to be cleaned up by the same packet.
   */
  ghost predicate Opens(r: Receiver, now: int, num: nat)
    requires |r.lastRecvd| == LAST_RECVD_BUF_SIZE
  {
    var r1 := r.(lastOnline := now);
    Stale(r1, SlotOf(num)) && (CleanupDue(r1) ==> forall k :: k in r.receiving ==> SlotOf(k) != SlotOf(num))
  }

  /** When the reservation in force at `now` began. */
  function Base(r: Receiver, now: int, num: nat): int
    requires |r.lastRecvd| == LAST_RECVD_BUF_SIZE
  {
    if Stale(r.(lastOnline := now), SlotOf(num)) then now else r.lastRecvd[SlotOf(num)]
  }

  /**
   The number carries nothing that could reach a command begun at `now`: it is not in the table, or it is
   left over from an old reservation and a cleanup now could remove only it from its slot.
   */
  ghost predicate Startable(r: Receiver, now: int, num: nat)
    requires |r.lastRecvd| == LAST_RECVD_BUF_SIZE
  {
    var r1 := r.(lastOnline := now);
    num in r.receiving ==>
      && Stale(r1, SlotOf(num))
      && (CleanupDue(r1) ==> forall k :: k in r.receiving && k != num ==> SlotOf(k) != SlotOf(num))
  }

  lemma {:induction false} CleanedFirst(r: Receiver, mid: Receiver, now: int, num: nat)
    requires Inv(r) && Inv(mid) && Cleaned(r.(lastOnline := now), mid) && Startable(r, now, num)
    ensures mid.lastOnline == now
    ensures Stale(mid, SlotOf(num)) <==> Opens(r, now, num)
    ensures !Opens(r, now, num) ==> num !in mid.receiving && mid.lastRecvd[SlotOf(num)] == Base(r, now, num)
  {
    hide Sound, SlotOf;
    var r1 := r.(lastOnline := now);
    assert CleanupDue(r1) ==> SlotMarked(r1, mid.(lastCleaned := r1.lastCleaned), r.receiving.Keys, SlotOf(num));
  }

  lemma {:induction false} OpenStep(r: Receiver, e: Entry, c: Sliced)
    requires c.Valid() && Inv(r) && Step(r, e) && c.Genuine(e.event) && Startable(r, e.event.now, c.num)
    requires c.BlockIn(e.event) != {} && Opens(r, e.event.now, c.num)
    ensures e.reply.Some? && forall i :: 0 <= i < 256 ==> (Has(e.reply.value.ack, i) <==> i in c.BlockIn(e.event))
    ensures if c.Covered(c.BlockIn(e.event))
      then Closed(e.after, c, e.event.now) && c.DeliveryIn(e) == [Delivery(c.num, c.cmd, c.data)]
      else Collecting(e.after, c, e.event.now, c.BlockIn(e.event)) && c.DeliveryIn(e) == []
  {
    hide Sound, SlotOf, AddPiece, Assembled, Complete, Fresh, ParseSlice, Has, Chunk, Sliced.Covered, Sliced.IsBlock,
        Valid, Cleaned, Opens, Startable;
    var mid :| Inv(mid) && Cleaned(r.(lastOnline := e.event.now), mid) && Outcome(mid, e);
    CleanedFirst(r, mid, e.event.now, c.num);
    var s := SliceOf(e.event).value;
    GenuineSlice(c, e.event);
    OpenedCollects(mid, s, c);
    CollectBlock(Opened(mid, s.num, s.maxBlock), s, c, e.event.now, {});
    assert {} + {s.block} == {s.block};
  }

  /** Opening is the same as having opened before. */
  lemma {:induction false} OpenedCollects(mid: Receiver, s: Slice, c: Sliced)
    requires c.Valid() && Inv(mid) && Stale(mid, SlotOf(c.num))
    requires s.num == c.num && s.block < 256 && s.maxBlock == c.Count() - 1
    ensures
      var mid1 := Opened(mid, s.num, s.maxBlock);
      Collecting(mid1, c, mid.lastOnline, {}) && !Stale(mid1, SlotOf(c.num)) && Handled(mid, s) == Handled(mid1, s)
  {
    hide SlotOf, AddPiece, Assembled, Complete, Chunk;
    var mid1 := Opened(mid, s.num, s.maxBlock);
    OpenedKeepsInv(mid, s.num, s.maxBlock);
    FreshSound(s.maxBlock);
    assert Opened(mid1, s.num, s.maxBlock) == mid1;
  }

  /**
   Within one reservation, and starting with a packet that carries one of its blocks, a command is
   delivered exactly once, unchanged, if its number could be opened and all its blocks came; otherwise
   it is not delivered at all.
   */
  lemma {:induction false} ExactlyOnceDelivery(r: Receiver, run: seq<Entry>, c: Sliced)
    requires c.Valid() && Inv(r) && run != [] && IsRun(r, run) && Startable(r, run[0].event.now, c.num)
    requires c.BlockIn(run[0].event) != {} && Within(c, run, Base(r, run[0].event.now, c.num))
    ensures c.Deliveries(run) ==
      if Opens(r, run[0].event.now, c.num) && c.Covered(c.BlocksIn(run)) then [Delivery(c.num, c.cmd, c.data)] else []
  {
    hide Opens, Startable, Step, Sliced.Genuine, Sliced.BlockIn, Sliced.DeliveryIn, Closed, Collecting;
    var e := run[0];
    if Opens(r, e.event.now, c.num) {
      OpensBase(r, e.event.now, c.num);
      OpenStep(r, e, c);
      if c.Covered(c.BlockIn(e.event)) {
        ClosedRun(e.after, run[1..], c, e.event.now);
      } else {
        CollectRun(e.after, run[1..], c, e.event.now, c.BlockIn(e.event));
      }
    } else {
      NotOpened(r, e, c);
      ClosedRun(e.after, run[1..], c, Base(r, e.event.now, c.num));
    }
  }

  lemma {:induction false} OpensBase(r: Receiver, now: int, num: nat)
    requires Inv(r) && Opens(r, now, num)
    ensures Base(r, now, num) == now
  {
  }

  lemma {:induction false} NotOpened(r: Receiver, e: Entry, c: Sliced)
    requires c.Valid() && Inv(r) && Step(r, e) && Startable(r, e.event.now, c.num) && !Opens(r, e.event.now, c.num)
    ensures Closed(e.after, c, Base(r, e.event.now, c.num)) && c.DeliveryIn(e) == []
    ensures c.BlockIn(e.event) != {} ==> e.reply.Some? && e.reply.value.ack == AllFlags()
  {
    hide Opens, Startable, Cleaned, Outcome, Sound, Sliced.DeliveryIn, Sliced.BlockIn, AllFlags;
    var mid :| Inv(mid) && Cleaned(r.(lastOnline := e.event.now), mid) && Outcome(mid, e);
    CleanedFirst(r, mid, e.event.now, c.num);
    ClosedOutcome(mid, e, c, Base(r, e.event.now, c.num));
  }

  // Acknowledgements.

  /** Packet `j` acknowledges, of the blocks of `c`, those that had arrived with it or before it. */
  ghost predicate AcksArrivals(c: Sliced, run: seq<Entry>, got: set<nat>, j: nat)
    requires c.Valid() && j < |run|
  {
    c.BlockIn(run[j].event) != {} ==>
      && run[j].reply.Some?
      && forall i :: 0 <= i < c.Count() ==> (Has(run[j].reply.value.ack, i) <==> i in got + c.BlocksIn(run[..j + 1]))
  }

  lemma {:induction false} AcksShift(c: Sliced, run: seq<Entry>, got: set<nat>, j: nat)
    requires c.Valid() && 0 < j < |run|
    ensures got + c.BlocksIn(run[..j + 1]) == (got + c.BlockIn(run[0].event)) + c.BlocksIn(run[1..][..j])
  {
    assert run[..j + 1][1..] == run[1..][..j];
  }

  lemma {:induction false} FirstBlocks(c: Sliced, run: seq<Entry>)
    requires run != []
    ensures c.BlocksIn(run[..1]) == c.BlockIn(run[0].event)
  {
    assert run[..1][1..] == [];
  }

  lemma {:induction false} CoveredAcks(r: Receiver, run: seq<Entry>, c: Sliced, base: int, got: set<nat>, j: nat)
    requires c.Valid() && Closed(r, c, base) && c.Covered(got) && IsRun(r, run) && Within(c, run, base) && j < |run|
    ensures AcksArrivals(c, run, got, j)
  {
    hide Closed, Step, Sliced.Genuine, Sliced.BlockIn, Has, AllFlags;
    ClosedRun(r, run, c, base);
    if c.BlockIn(run[j].event) != {} {
      forall i | 0 <= i < c.Count() ensures Has(run[j].reply.value.ack, i) && i in got {
        FullHas(i);
      }
    }
  }

  lemma {:induction false} CollectAcks(r: Receiver, run: seq<Entry>, c: Sliced, base: int, got: set<nat>, j: nat)
    requires c.Valid() && Collecting(r, c, base, got) && !c.Covered(got)
    requires IsRun(r, run) && Within(c, run, base) && j < |run|
    ensures AcksArrivals(c, run, got, j)
    decreases j
  {
    hide Collecting, Closed, Step, Sliced.Genuine, Sliced.BlockIn, Has, Sliced.Covered, Sliced.BlocksIn;
    var e := run[0];
    var got' := got + c.BlockIn(e.event);
    CollectStep(r, e, c, base, got);
    if j == 0 {
      FirstBlocks(c, run);
    } else {
      AcksShift(c, run, got, j);
      assert run[1..][j - 1] == run[j];
      if c.Covered(got') {
        CoveredAcks(e.after, run[1..], c, base, got', j - 1);
      } else {
        CollectAcks(e.after, run[1..], c, base, got', j - 1);
      }
    }
  }

  /** Once a number could be opened, every acknowledgement is exact: no block is confirmed before it has come. */
  lemma {:induction false} AcknowledgementsExact(r: Receiver, run: seq<Entry>, c: Sliced, j: nat)
    requires c.Valid() && Inv(r) && run != [] && IsRun(r, run) && Startable(r, run[0].event.now, c.num) && j < |run|
    requires c.BlockIn(run[0].event) != {} && Within(c, run, run[0].event.now)
    requires Opens(r, run[0].event.now, c.num)
    ensures AcksArrivals(c, run, {}, j)
  {
    hide Opens, Startable, Step, Sliced.Genuine, Sliced.BlockIn, Closed, Collecting, Has, Sliced.Covered,
        Sliced.BlocksIn;
    var e := run[0];
    OpenStep(r, e, c);
    if j == 0 {
      FirstBlocks(c, run);
    } else {
      AcksShift(c, run, {}, j);
      assert {} + c.BlockIn(e.event) == c.BlockIn(e.event);
      assert run[1..][j - 1] == run[j];
      if c.Covered(c.BlockIn(e.event)) {
        CoveredAcks(e.after, run[1..], c, e.event.now, c.BlockIn(e.event), j - 1);
      } else {
        CollectAcks(e.after, run[1..], c, e.event.now, c.BlockIn(e.event), j - 1);
      }
    }
  }

  /**
   A number that could not be opened is acknowledged in full although nothing is stored: its command is
   lost for the whole reservation.
   */
  lemma {:induction false} UnopenedIsLost(r: Receiver, run: seq<Entry>, c: Sliced)
    requires c.Valid() && Inv(r) && run != [] && IsRun(r, run) && Startable(r, run[0].event.now, c.num)
    requires Within(c, run, Base(r, run[0].event.now, c.num)) && !Opens(r, run[0].event.now, c.num)
    ensures c.Deliveries(run) == []
    ensures forall j :: 0 <= j < |run| && c.BlockIn(run[j].event) != {} ==>
      run[j].reply.Some? && run[j].reply.value.ack == AllFlags()
  {
    hide Opens, Startable, Step, Sliced.Genuine, Sliced.BlockIn, Sliced.DeliveryIn, Closed, AllFlags;
    var e := run[0];
    NotOpened(r, e, c);
    ClosedRun(e.after, run[1..], c, Base(r, e.event.now, c.num));
    forall j | 0 <= j < |run| && c.BlockIn(run[j].event) != {}
      ensures run[j].reply.Some? && run[j].reply.value.ack == AllFlags()
    {
      if j > 0 {
        assert run[j] == run[1..][j - 1];
      }
    }
  }

  lemma {:induction false} DeliversOwnNumber(mid: Receiver, s: Slice)
    requires Inv(mid) && s.block < 256
    ensures Handled(mid, s).1.delivery.Some? ==> Handled(mid, s).1.delivery.value.num == s.num
    ensures Handled(mid, s).0.lastCleaned == mid.lastCleaned
    ensures Handled(mid, s).0.receiving.Keys <= mid.receiving.Keys + {s.num}
  {
    hide Opened, AddPiece, Assembled, Complete;
    OpenedTouches(mid, s.num, s.maxBlock);
  }

  lemma {:induction false} OpenedTouches(r: Receiver, num: nat, maxBlock: nat)
    requires Inv(r)
    ensures Opened(r, num, maxBlock).lastCleaned == r.lastCleaned
    ensures Opened(r, num, maxBlock).receiving.Keys <= r.receiving.Keys + {num}
  {
  }

  /** A cleanup with a single datagram in the table. */
  lemma {:induction false} LoneLeftover(r: Receiver, num: nat) returns (mid: Receiver)
    requires Inv(r) && r.receiving.Keys == {num} && CleanupDue(r)
    ensures Inv(mid) && Cleaned(r, mid)
  {
    hide Sound, ClearedUpTo;
    NothingCleared(r);
    ClearOneMore(r, r, {}, num);
    assert {} + {num} == r.receiving.Keys;
    mid := ClearOne(r, num).(lastCleaned := r.lastOnline);
    assert mid.(lastCleaned := r.lastCleaned) == ClearOne(r, num);
  }

  /** A packet with block `i` of `c` that needs no cleanup. */
  lemma {:induction false} PlainStep(r: Receiver, c: Sliced, i: nat, now: int) returns (e: Entry)
    requires Inv(r) && c.Valid() && i < c.Count() && !CleanupDue(r.(lastOnline := now))
    ensures Step(r, e) && e.event.now == now && c.BlockIn(e.event) == {i} && c.Genuine(e.event)
    ensures e.after.lastCleaned == r.lastCleaned && e.after.receiving.Keys <= r.receiving.Keys + {c.num}
    ensures e.reply.Some? && (e.reply.value.delivery.Some? ==> e.reply.value.delivery.value.num == c.num)
  {
    hide Handled, ParseSlice, Sliced.IsBlock;
    var event := BlockEvent(c, i, now);
    var mid := r.(lastOnline := now);
    var s := SliceOf(event).value;
    DeliversOwnNumber(mid, s);
    e := Entry(event, Handled(mid, s).0, Some(Handled(mid, s).1));
    assert Inv(mid) && Cleaned(r.(lastOnline := now), mid) && Outcome(mid, e);
  }

  lemma {:induction false} BlockEvent(c: Sliced, i: nat, now: int) returns (e: Event)
    requires c.Valid() && i < c.Count()
    ensures e.now == now && SliceOf(e).Some? && SliceOf(e).value.num == c.num && SliceOf(e).value.block == i
    ensures c.Genuine(e) && c.BlockIn(e) == {i}
  {
    hide ParseSlice, SliceHeader, Chunk;
    ChunkInside(c.Whole(), c.pmtu, i);
    e := Event(now, Some(SliceHeader(c.num, i, c.Count() - 1) + Chunk(c.Whole(), c.pmtu, i)));
    BlockParses(c, e.slice.value, i);
  }

  /** A packet with block `i` of `c` that also cleans up the one datagram in the table. */
  lemma {:induction false} CleaningStep(r: Receiver, left: nat, c: Sliced, i: nat, now: int) returns (e: Entry)
    requires Inv(r) && c.Valid() && i < c.Count() && CleanupDue(r.(lastOnline := now)) && r.receiving.Keys == {left}
    ensures Step(r, e) && e.event.now == now && c.BlockIn(e.event) == {i}
  {
    hide Handled, ParseSlice, Sliced.IsBlock, Cleaned;
    var event := BlockEvent(c, i, now);
    var mid := LoneLeftover(r.(lastOnline := now), left);
    var s := SliceOf(event).value;
    e := Entry(event, Handled(mid, s).0, Some(Handled(mid, s).1));
    assert Inv(mid) && Cleaned(r.(lastOnline := now), mid) && Outcome(mid, e);
  }

  /**
   A command is lost from a new receiver on: of number 5 one of two blocks comes, 9002 ms later the only
   block of number 4101, whose slot is the same. That packet also brings the cleanup, which takes the old
   datagram out and refreshes the slot, so the new block is acknowledged in full and stored nowhere.
   */
  lemma {:induction false} LeftoverShutsOut() returns (run: seq<Entry>, lost: Sliced)
    ensures lost.Valid() && lost.num == 4101 && lost.Count() == 1
    ensures |run| == 2 && IsRun(Initial(), run)
    ensures Sliced(5, 1, [2], 1).BlockIn(run[0].event) == {0} && run[0].event.now == 10
    ensures lost.BlockIn(run[1].event) == {0} && run[1].event.now == 9012
    ensures run[1].reply.Some? && run[1].reply.value.ack == AllFlags() && lost.Deliveries(run) == []
  {
    hide Step, Sliced.DeliveryIn, Sliced.BlockIn, Sliced.Covered, Sliced.Genuine, AllFlags, FromWhole, Sound;
    var left := Sliced(5, 1, [2], 1);
    lost := Sliced(4101, 1, [], 1);
    var e0 := PlainStep(Initial(), left, 0, 10);
    OpenStep(Initial(), e0, left);
    NotCovered(left, {0}, 1);
    var r := e0.after;
    assert r.receiving.Keys == {5};
    var e1 := CleaningStep(r, 5, lost, 0, 9012);
    assert 5 in r.receiving && SlotOf(5) == SlotOf(4101);
    NotOpened(r, e1, lost);
    run := [e0, e1];
    assert run[1..] == [e1] && run[1..][1..] == [];
    assert IsRun(e1.after, run[1..][1..]) && IsRun(r, run[1..]);
    OtherDelivery(left, lost, e0);
    assert lost.Deliveries(run[1..]) == lost.DeliveryIn(e1) + lost.Deliveries([]);
  }

  lemma {:induction false} NotCovered(c: Sliced, got: set<nat>, i: nat)
    requires c.Valid() && i < c.Count() && i !in got
    ensures !c.Covered(got)
  {
  }

  lemma {:induction false} OtherDelivery(c: Sliced, d: Sliced, e: Entry)
    requires e.reply.Some? && (e.reply.value.delivery.Some? ==> e.reply.value.delivery.value.num == c.num)
    requires c.num != d.num
    ensures d.DeliveryIn(e) == []
  {
  }

  /**
   Blocks of another command under a number still in progress are taken for blocks of the first one: after
   the first block of `a` the second block of `b` completes a command that nobody sent.
   */
  lemma {:induction false} MixedBlocks() returns (run: seq<Entry>, a: Sliced, b: Sliced)
    ensures a == Sliced(5, 1, [2], 1) && b == Sliced(5, 3, [4], 1) && a.Valid() && b.Valid()
    ensures |run| == 2 && IsRun(Initial(), run) && run[1].event.now == 20 && run[0].event.now == 10
    ensures run[0].event.slice.Some? && a.IsBlock(run[0].event.slice.value, 0)
    ensures run[1].event.slice.Some? && b.IsBlock(run[1].event.slice.value, 1)
    ensures !Startable(run[0].after, 20, b.num) && b.Deliveries(run) == [Delivery(5, 1, [4])]
  {
    hide Step, Sliced.DeliveryIn, Sliced.BlockIn, Sliced.Genuine, Sliced.Covered, AllFlags, FromWhole, Sound,
        SliceHeader, Has, Sliced.Deliveries, Sliced.BlocksIn;
    a, b := Sliced(5, 1, [2], 1), Sliced(5, 3, [4], 1);
    var mixed := Sliced(5, 1, [4], 1);
    var e0 := PlainStep(Initial(), mixed, 0, 10);
    OpenStep(Initial(), e0, mixed);
    NotCovered(mixed, {0}, 1);
    var e1 := PlainStep(e0.after, mixed, 1, 20);
    run := [e0, e1];
    assert run[1..] == [e1] && run[1..][1..] == [];
    assert IsRun(e1.after, run[1..][1..]) && IsRun(e0.after, run[1..]);
    BlocksOfPair(mixed, run);
    ExactlyOnceDelivery(Initial(), run, mixed);
    SameNumber(mixed, b, run);
    GenuineBlock(mixed, e0.event, 0);
    GenuineBlock(mixed, e1.event, 1);
    assert Chunk(mixed.Whole(), 1, 0) == [1] == Chunk(a.Whole(), 1, 0);
    assert Chunk(mixed.Whole(), 1, 1) == [4] == Chunk(b.Whole(), 1, 1);
  }

  lemma {:induction false} GenuineBlock(c: Sliced, e: Event, i: nat)
    requires c.Valid() && c.Genuine(e) && c.BlockIn(e) == {i}
    ensures e.slice.Some? && c.IsBlock(e.slice.value, i)
  {
    hide ParseSlice, Sliced.IsBlock;
    assert i in c.BlockIn(e);
  }

  lemma {:induction false} BlocksOfPair(c: Sliced, run: seq<Entry>)
    requires c.Valid() && c.Count() == 2 && |run| == 2
    requires c.BlockIn(run[0].event) == {0} && c.BlockIn(run[1].event) == {1}
    ensures c.Covered(c.BlocksIn(run))
  {
    hide Sliced.BlockIn;
    assert run[1..][1..] == [];
    assert c.BlocksIn(run[1..]) == {1} + c.BlocksIn([]);
    assert c.BlocksIn(run) == {0, 1};
  }

  lemma {:induction false} SameNumber(c: Sliced, d: Sliced, run: seq<Entry>)
    requires c.num == d.num
    ensures c.Deliveries(run) == d.Deliveries(run)
  {
    if run != [] {
      SameNumber(c, d, run[1..]);
    }
  }

  // The object takes such steps.

  /** One accepted packet: sets the clock, cleans up, and handles the slice if there is one. */
  method ReceivePacket(rx: SlicingReceiver, e: Event) returns (entry: Entry)
    requires Inv(rx.State())
    modifies rx, rx.lastRecvd
    ensures entry.event == e && entry.after == rx.State() && Inv(rx.State()) && Step(old(rx.State()), entry)
  {
    hide Cleaned, Handled, ParseSlice, Sound;
    ghost var r := rx.State();
    rx.SetLastOnline(e.now);
    rx.DoCleanup();
    ghost var mid := rx.State();
    CleanedInv(r.(lastOnline := e.now), mid);
    var s := SliceOf(e);
    if s.None? {
      entry := Entry(e, Receiver(rx.receiving, rx.lastRecvd[..], rx.lastOnline, rx.lastCleaned), None);
    } else {
      var reply := rx.HandleSliced(s.value);
      entry := Entry(e, Receiver(rx.receiving, rx.lastRecvd[..], rx.lastOnline, rx.lastCleaned), Some(reply));
    }
    assert Inv(mid) && Cleaned(r.(lastOnline := e.now), mid) && Outcome(mid, entry);
  }

  lemma {:induction false} CleanedInv(r: Receiver, mid: Receiver)
    requires Inv(r) && Cleaned(r, mid)
    ensures Inv(mid)
  {
    hide Sound, SlotOf, SlotsMarked, OnePerSlot;
  }

  /** A whole run on the object: exactly the runs that the results above are about. */
  method ReceiveAll(rx: SlicingReceiver, events: seq<Event>) returns (run: seq<Entry>)
    requires Inv(rx.State())
    modifies rx, rx.lastRecvd
    ensures |run| == |events| && (forall j :: 0 <= j < |run| ==> run[j].event == events[j])
    ensures Inv(rx.State()) && IsRun(old(rx.State()), run) && Last(old(rx.State()), run) == rx.State()
  {
    hide Step, Inv;
    run := [];
    for i := 0 to |events|
      invariant Inv(rx.State()) && |run| == i && forall j :: 0 <= j < i ==> run[j].event == events[j]
      invariant IsRun(old(rx.State()), run) && Last(old(rx.State()), run) == rx.State()
    {
      var entry := ReceivePacket(rx, events[i]);
      RunExtends(old(rx.State()), run, entry);
      run := run + [entry];
    }
  }

  /** The state a run leaves. */
  function Last(r: Receiver, run: seq<Entry>): Receiver {
    if run == [] then r else run[|run| - 1].after
  }

  lemma {:induction false} RunExtends(r: Receiver, run: seq<Entry>, e: Entry)
    requires IsRun(r, run) && Step(Last(r, run), e)
    ensures IsRun(r, run + [e])
    decreases |run|
  {
    hide Step;
    if run == [] {
      assert run + [e] == [e] && [e][1..] == [];
    } else {
      assert (run + [e])[0] == run[0] && (run + [e])[1..] == run[1..] + [e];
      assert run[1..] != [] ==> run[1..][|run[1..]| - 1] == run[|run| - 1];
      RunExtends(run[0].after, run[1..], e);
    }
  }
}
