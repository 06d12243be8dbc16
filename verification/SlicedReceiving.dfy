/**
 All datagrams being received, and the promise of the slicing layer: a command that was cut up is
 handed on exactly once, whatever the order, repetition and interleaving of its blocks
 (src/protocol/slicing.rs, src/client/protocol_recv_handlers.rs).
 */
module SlicedReceiving {
  import opened Bytes
  import opened Numbers
  import opened Flags
  import opened Slicing
  import opened Reassembly

  const LAST_RECVD_BUF_SIZE: nat := 4096
  const TIME_WHEN_CAN_RECEIVE_RPT: int := 9000
  const CLEANUP_INTERVAL: int := 5000

  /** Datagrams in progress by number, per slot the time its last new datagram began, and two clocks. */
  datatype Receiver = Receiver(
    receiving: map<nat, SlicedData>, lastRecvd: seq<int>, lastOnline: int, lastCleaned: int)

  /** A completed command with its datagram number. */
  datatype Delivery = Delivery(num: nat, cmd: byte, data: seq<byte>)

  /** One block as read off the wire. */
  datatype Slice = Slice(num: nat, block: nat, maxBlock: nat, body: seq<byte>)

  function SlotOf(num: nat): (i: nat)
    ensures i < LAST_RECVD_BUF_SIZE
  {
    num % LAST_RECVD_BUF_SIZE
  }

  function ParseSlice(payload: seq<byte>): (r: Option<Slice>)
    ensures r.Some? ==> r.value.num < 0x1_0000 && r.value.block < 256 && r.value.maxBlock < 256
  {
    if |payload| < SLICE_HEADER_SIZE then None
    else Some(Slice(U16(payload[0], payload[1]), payload[2] as nat, payload[3] as nat, payload[4..]))
  }

  lemma {:induction false} ParseFields(a: byte, b: byte, block: byte, maxBlock: byte, body: seq<byte>)
    ensures ParseSlice([a, b, block, maxBlock] + body) == Some(Slice(U16(a, b), block as nat, maxBlock as nat, body))
  {
    hide U16;
    var bytes := [a, b, block, maxBlock] + body;
    assert bytes[4..] == body;
  }

  lemma {:induction false} HeaderFields(num: nat, block: nat, maxBlock: nat)
    requires num < 0x1_0000 && block < 256 && maxBlock < 256
    ensures SliceHeader(num, block, maxBlock) == [U16Bytes(num)[0], U16Bytes(num)[1], ByteOf(block), ByteOf(maxBlock)]
  {
    hide ByteOf, U16, U16Bytes;
    assert block % 256 == block && maxBlock % 256 == maxBlock;
  }

  /** A header that was written is read back. */
  lemma {:induction false} HeaderParses(num: nat, block: nat, maxBlock: nat, body: seq<byte>)
    requires num < 0x1_0000 && block < 256 && maxBlock < 256
    ensures ParseSlice(SliceHeader(num, block, maxBlock) + body) == Some(Slice(num, block, maxBlock, body))
  {
    hide ByteOf, U16, U16Bytes, ParseSlice, SliceHeader;
    HeaderFields(num, block, maxBlock);
    ParseFields(U16Bytes(num)[0], U16Bytes(num)[1], ByteOf(block), ByteOf(maxBlock), body);
  }

  /** Sound bookkeeping between two packets. */
  ghost predicate Inv(r: Receiver) {
    && |r.lastRecvd| == LAST_RECVD_BUF_SIZE
    && forall k :: k in r.receiving ==> Sound(r.receiving[k])
  }

  ghost predicate Sound(d: SlicedData) {
    Valid(d) && FlagsExact(d) && !Complete(d) && !d.completionReturned
  }

  // Cleanup.

  predicate Stale(r: Receiver, slot: nat)
    requires slot < |r.lastRecvd|
  {
    Abs(r.lastOnline - r.lastRecvd[slot]) > TIME_WHEN_CAN_RECEIVE_RPT
  }

  /** Looking at one datagram of the table: an old one goes, and refreshes its slot. */
  function ClearOne(r: Receiver, k: nat): Receiver
    requires |r.lastRecvd| == LAST_RECVD_BUF_SIZE
  {
    if Stale(r, SlotOf(k))
    then r.(receiving := r.receiving - {k}, lastRecvd := r.lastRecvd[SlotOf(k) := r.lastOnline])
    else r
  }

  ghost predicate SlotUsed(nums: set<nat>, slot: nat) {
    exists k :: k in nums && SlotOf(k) == slot
  }

  /**
   The table after looking at the datagrams in `done`, in some order. A removal refreshes its slot, so of
   the datagrams that share an old slot exactly one goes.
   */
  ghost predicate ClearedUpTo(r: Receiver, r': Receiver, done: set<nat>) {
    && |r.lastRecvd| == |r'.lastRecvd| == LAST_RECVD_BUF_SIZE
    && r' == r.(receiving := r'.receiving, lastRecvd := r'.lastRecvd)
    && OnlyRemoved(r, r', done)
    && SlotsMarked(r, r', done)
    && OnePerSlot(r, r')
  }

  /** Datagrams only leave the table, from an old slot that is then no longer old. */
  ghost predicate OnlyRemoved(r: Receiver, r': Receiver, done: set<nat>)
    requires |r.lastRecvd| == |r'.lastRecvd| == LAST_RECVD_BUF_SIZE
  {
    && r'.receiving.Keys <= r.receiving.Keys
    && (forall k :: k in r'.receiving ==> r'.receiving[k] == r.receiving[k])
    && (forall k :: k in r.receiving && k !in r'.receiving ==> k in done && Stale(r, SlotOf(k)))
    && (forall k :: k in done ==> !Stale(r', SlotOf(k)))
  }

  /** Exactly the old slots of these datagrams are refreshed, and each has lost a datagram. */
  ghost predicate SlotsMarked(r: Receiver, r': Receiver, done: set<nat>)
    requires |r.lastRecvd| == |r'.lastRecvd| == LAST_RECVD_BUF_SIZE
  {
    forall i :: 0 <= i < LAST_RECVD_BUF_SIZE ==> SlotMarked(r, r', done, i)
  }

  ghost predicate SlotMarked(r: Receiver, r': Receiver, done: set<nat>, i: nat)
    requires |r.lastRecvd| == |r'.lastRecvd| == LAST_RECVD_BUF_SIZE && i < LAST_RECVD_BUF_SIZE
  {
    && r'.lastRecvd[i] == (if Stale(r, i) && SlotUsed(done, i) then r.lastOnline else r.lastRecvd[i])
    && (Stale(r, i) && SlotUsed(done, i) ==> SlotUsed(done - r'.receiving.Keys, i))
  }

  ghost predicate OnePerSlot(r: Receiver, r': Receiver) {
    forall k, k' :: k in r.receiving && k' in r.receiving && k !in r'.receiving && k' !in r'.receiving && k != k' ==>
      SlotOf(k) != SlotOf(k')
  }

  ghost predicate Cleared(r: Receiver, r': Receiver) {
    ClearedUpTo(r, r', r.receiving.Keys)
  }

  lemma {:induction false} ClearOneMore(r: Receiver, r': Receiver, done: set<nat>, k: nat)
    requires ClearedUpTo(r, r', done) && done <= r.receiving.Keys && k in r'.receiving && k !in done
    ensures ClearedUpTo(r, ClearOne(r', k), done + {k})
  {
    hide SlotOf, OnlyRemoved, SlotsMarked, OnePerSlot;
    RemovesOneMore(r, r', done, k);
    MarksOneMore(r, r', done, k);
  }

  lemma {:induction false} RemovesOneMore(r: Receiver, r': Receiver, done: set<nat>, k: nat)
    requires |r.lastRecvd| == |r'.lastRecvd| == LAST_RECVD_BUF_SIZE && r'.lastOnline == r.lastOnline
    requires OnlyRemoved(r, r', done) && SlotsMarked(r, r', done) && OnePerSlot(r, r')
    requires done <= r.receiving.Keys && k in r'.receiving && k !in done
    ensures OnlyRemoved(r, ClearOne(r', k), done + {k}) && OnePerSlot(r, ClearOne(r', k))
  {
    hide SlotOf, SlotUsed;
    assert SlotMarked(r, r', done, SlotOf(k));
  }

  lemma {:induction false} MarksOneMore(r: Receiver, r': Receiver, done: set<nat>, k: nat)
    requires |r.lastRecvd| == |r'.lastRecvd| == LAST_RECVD_BUF_SIZE && r'.lastOnline == r.lastOnline
    requires SlotsMarked(r, r', done) && k in r'.receiving && k !in done
    ensures SlotsMarked(r, ClearOne(r', k), done + {k})
  {
    hide SlotOf, SlotUsed;
    var r'' := ClearOne(r', k);
    forall i | 0 <= i < LAST_RECVD_BUF_SIZE ensures SlotMarked(r, r'', done + {k}, i) {
      assert SlotMarked(r, r', done, i);
      SlotUsedMore(done, k, i);
      SlotUsedMonotone(done - r'.receiving.Keys, (done + {k}) - r''.receiving.Keys, i);
      SlotUsedBy((done + {k}) - r''.receiving.Keys, k);
    }
  }

  lemma {:induction false} SlotUsedMonotone(a: set<nat>, b: set<nat>, i: nat)
    requires a <= b
    ensures SlotUsed(a, i) ==> SlotUsed(b, i)
  {
  }

  lemma {:induction false} SlotUsedBy(nums: set<nat>, k: nat)
    ensures k in nums ==> SlotUsed(nums, SlotOf(k))
  {
  }

  lemma {:induction false} SlotUsedMore(done: set<nat>, k: nat, i: nat)
    ensures SlotUsed(done + {k}, i) <==> SlotUsed(done, i) || SlotOf(k) == i
  {
    hide SlotOf;
    if SlotUsed(done, i) {
      var w :| w in done && SlotOf(w) == i;
      assert w in done + {k};
    }
    assert k in done + {k};
  }

  predicate CleanupDue(r: Receiver) {
    Abs(r.lastCleaned - r.lastOnline) > CLEANUP_INTERVAL
  }

  ghost predicate Cleaned(r: Receiver, r': Receiver) {
    if CleanupDue(r) then r'.lastCleaned == r.lastOnline && Cleared(r, r'.(lastCleaned := r.lastCleaned))
    else r' == r
  }

  // One block.

  /** The table after looking up the datagram of a block. */
  function Opened(r: Receiver, num: nat, maxBlock: nat): (r': Receiver)
    requires |r.lastRecvd| == LAST_RECVD_BUF_SIZE
    ensures |r'.lastRecvd| == LAST_RECVD_BUF_SIZE
    ensures num in r'.receiving <==> Stale(r, SlotOf(num)) || num in r.receiving
  {
    if Stale(r, SlotOf(num)) then
      r.(lastRecvd := r.lastRecvd[SlotOf(num) := r.lastOnline], receiving := r.receiving[num := Fresh(maxBlock)])
    else if num in r.receiving && r.receiving[num].blocksCount != maxBlock + 1 then
      r.(receiving := r.receiving[num := Fresh(maxBlock)])
    else r
  }

  /** Blocks can be stored: also between handing a datagram on and removing it. */
  ghost predicate Storable(r: Receiver) {
    |r.lastRecvd| == LAST_RECVD_BUF_SIZE && forall k :: k in r.receiving ==> Valid(r.receiving[k])
  }

  datatype Reply = Reply(delivery: Option<Delivery>, ack: Flags256)

  /** A block is added to its datagram; a complete datagram is assembled and marked. */
  ghost function Received(r: Receiver, s: Slice): (res: (Receiver, Reply))
    requires Storable(r) && s.block < 256
  {
    var r1 := Opened(r, s.num, s.maxBlock);
    if s.num !in r1.receiving || r1.receiving[s.num].completionReturned then (r1, Reply(None, AllFlags()))
    else
      var d := AddPiece(r1.receiving[s.num], s.block, s.body);
      if Complete(d) && Assembled(d).Some? then
        (r1.(receiving := r1.receiving[s.num := d.(completionReturned := true)]),
         Reply(Some(Delivery(s.num, Assembled(d).value.0, Assembled(d).value.1)), d.ackFlags))
      else (r1.(receiving := r1.receiving[s.num := d]), Reply(None, d.ackFlags))
  }

  /** The packet handler removes a datagram once it has been handed on. */
  ghost function Handled(r: Receiver, s: Slice): (res: (Receiver, Reply))
    requires Storable(r) && s.block < 256
  {
    var (r1, reply) := Received(r, s);
    if reply.delivery.Some? then (r1.(receiving := r1.receiving - {s.num}), reply) else (r1, reply)
  }

  // What every packet keeps.

  lemma {:induction false} FreshCounts(n: nat)
    requires n <= 256
    ensures Present(Fresh(0).spans, n) == 0 && Stored(Fresh(0).spans, n) == 0
  {
    if n > 0 {
      FreshCounts(n - 1);
    }
  }

  lemma {:induction false} FreshSound(maxBlock: nat)
    requires maxBlock < 256
    ensures Sound(Fresh(maxBlock)) && forall i: nat :: !Arrived(Fresh(maxBlock), i)
  {
    hide Has, NoFlags;
    FreshCounts(maxBlock + 1);
    assert Fresh(maxBlock).spans == Fresh(0).spans;
    forall i | 0 <= i < 256 ensures !Has(NoFlags(), i) {
      FullHas(i);
    }
  }

  lemma {:induction false} OpenedKeepsInv(r: Receiver, num: nat, maxBlock: nat)
    requires Inv(r) && maxBlock < 256
    ensures Inv(Opened(r, num, maxBlock))
    ensures num in Opened(r, num, maxBlock).receiving ==>
      Opened(r, num, maxBlock).receiving[num].blocksCount == maxBlock + 1
  {
    hide Sound;
    FreshSound(maxBlock);
  }

  lemma {:induction false} PieceKeepsSound(d: SlicedData, block: nat, body: seq<byte>)
    requires Sound(d) && block < 256
    ensures
      var d' := AddPiece(d, block, body);
      && Valid(d') && FlagsExact(d') && !d'.completionReturned
      && (Complete(d') <==> AllArrived(d', d'.blocksCount)) && (Complete(d') <==> Assembled(d').Some?)
  {
    AddPieceBlocks(d, block, body);
    AddPieceFlags(d, block, body);
    CompleteIffAll(AddPiece(d, block, body));
  }

  lemma {:induction false} HandledKeepsInv(r: Receiver, s: Slice)
    requires Inv(r) && s.block < 256 && s.maxBlock < 256
    ensures Inv(Handled(r, s).0)
  {
    hide Opened, AddPiece, Assembled, Complete, Valid, FlagsExact;
    OpenedKeepsInv(r, s.num, s.maxBlock);
    var r1 := Opened(r, s.num, s.maxBlock);
    if s.num in r1.receiving {
      PieceKeepsSound(r1.receiving[s.num], s.block, s.body);
    }
  }

  /** A new receiver. No slot has been used: the sentinel lies outside every reservation. */
  function Initial(): Receiver {
    Receiver(map[], seq(LAST_RECVD_BUF_SIZE, i => -TIME_WHEN_CAN_RECEIVE_RPT - 1), 0, 0)
  }

  // The object.

  class SlicingReceiver {
    var receiving: map<nat, SlicedData>
    const lastRecvd: array<int>
    var lastOnline: int
    var lastCleaned: int

    function State(): Receiver
      reads this, lastRecvd
    {
      Receiver(receiving, lastRecvd[..], lastOnline, lastCleaned)
    }

    constructor ()
      ensures State() == Initial() && Inv(State()) && fresh(lastRecvd)
      ensures forall i :: 0 <= i < LAST_RECVD_BUF_SIZE ==> Stale(State(), i)
    {
      receiving := map[];
      lastRecvd := new int[LAST_RECVD_BUF_SIZE](i => -TIME_WHEN_CAN_RECEIVE_RPT - 1);
      lastOnline, lastCleaned := 0, 0;
    }

    method SetLastOnline(now: int)
      modifies `lastOnline
      ensures State() == old(State()).(lastOnline := now)
    {
      lastOnline := now;
    }

    method ClearOld()
      requires |State().lastRecvd| == LAST_RECVD_BUF_SIZE
      modifies `receiving, lastRecvd
      ensures Cleared(old(State()), State())
    {
      hide ClearedUpTo;
      var todo := receiving.Keys;
      ghost var r := State();
      ghost var done: set<nat> := {};
      NothingCleared(r);
      while todo != {}
        invariant |State().lastRecvd| == LAST_RECVD_BUF_SIZE
        invariant done !! todo && done + todo == r.receiving.Keys && todo <= receiving.Keys
        invariant ClearedUpTo(r, State(), done)
        decreases todo
      {
        var k :| k in todo;
        ghost var r' := State();
        var slot := SlotOf(k);
        var isOld := Abs(lastOnline - lastRecvd[slot]) > TIME_WHEN_CAN_RECEIVE_RPT;
        if isOld {
          lastRecvd[slot] := lastOnline;
          receiving := receiving - {k};
        }
        assert State() == ClearOne(r', k);
        ClearOneMore(r, r', done, k);
        todo := todo - {k};
        done := done + {k};
      }
      assert done == r.receiving.Keys;
    }

    method DoCleanup()
      requires |State().lastRecvd| == LAST_RECVD_BUF_SIZE
      modifies this, lastRecvd
      ensures Cleaned(old(State()), State())
    {
      hide ClearedUpTo;
      var due := Abs(lastCleaned - lastOnline) > CLEANUP_INTERVAL;
      if due {
        ghost var r := State();
        ClearOld();
        ClearedKeepsClocks(r, State());
        lastCleaned := lastOnline;
        assert State().(lastCleaned := r.lastCleaned) == State().(lastCleaned := old(lastCleaned));
      }
    }

    method IsNewDatagram(num: nat) returns (isNew: bool)
      requires |State().lastRecvd| == LAST_RECVD_BUF_SIZE
      modifies lastRecvd
      ensures isNew == Stale(old(State()), SlotOf(num))
      ensures lastRecvd[..] ==
        if isNew then old(lastRecvd[..])[SlotOf(num) := lastOnline] else old(lastRecvd[..])
    {
      var slot := SlotOf(num);
      isNew := Abs(lastOnline - lastRecvd[slot]) > TIME_WHEN_CAN_RECEIVE_RPT;
      if isNew {
        lastRecvd[slot] := lastOnline;
      }
    }

    method OnNewSliced(s: Slice) returns (reply: Reply)
      requires Storable(State()) && s.block < 256 && s.maxBlock < 256
      modifies this, lastRecvd
      ensures (State(), reply) == Received(old(State()), s)
    {
      hide AddPiece, Assembled, SlotOf, AllFlags;
      ghost var r := State();
      var isNew := IsNewDatagram(s.num);
      if isNew {
        receiving := receiving[s.num := Fresh(s.maxBlock)];
      } else if s.num !in receiving {
        return Reply(None, AllFlags());
      } else if receiving[s.num].blocksCount - 1 != s.maxBlock {
        receiving := receiving[s.num := Fresh(s.maxBlock)];
      }
      assert State() == Opened(r, s.num, s.maxBlock);
      FreshSound(s.maxBlock);
      if receiving[s.num].completionReturned {
        return Reply(None, AllFlags());
      }
      var d := AddPiece(receiving[s.num], s.block, s.body);
      AddPieceBlocks(receiving[s.num], s.block, s.body);
      var assembled := Assemble(d);
      if assembled.Some? {
        receiving := receiving[s.num := d.(completionReturned := true)];
        return Reply(Some(Delivery(s.num, assembled.value.0, assembled.value.1)), d.ackFlags);
      }
      receiving := receiving[s.num := d];
      return Reply(None, d.ackFlags);
    }

    /** A slice packet: the block, and removal of its datagram once handed on. */
    method HandleSliced(s: Slice) returns (reply: Reply)
      requires Inv(State()) && s.block < 256 && s.maxBlock < 256
      modifies this, lastRecvd
      ensures (State(), reply) == Handled(old(State()), s) && Inv(State())
    {
      hide Received;
      HandledKeepsInv(State(), s);
      reply := OnNewSliced(s);
      if reply.delivery.Some? {
        receiving := receiving - {s.num};
      }
    }
  }

  lemma {:induction false} NothingCleared(r: Receiver)
    requires |r.lastRecvd| == LAST_RECVD_BUF_SIZE
    ensures ClearedUpTo(r, r, {})
  {
  }

  lemma {:induction false} ClearedKeepsClocks(r: Receiver, r': Receiver)
    requires Cleared(r, r')
    ensures r'.lastOnline == r.lastOnline && r'.lastCleaned == r.lastCleaned
  {
  }
}
