/**
 Small commands share a packet: the sender's batch buffer and the receiver's splitter
 (src/client/protocol_direct_send.rs, src/client/protocol_recv.rs).
 */
module Batching {
  import opened Bytes

  const GROUPED: byte := 12

  datatype Item = Item(cmd: byte, data: seq<byte>)

  datatype Packet = Packet(cmd: byte, payload: seq<byte>)

  // The group format: command, 16-bit length, data.

  function ItemBytes(x: Item): (r: seq<byte>)
    ensures |r| == |x.data| + 3
  {
    [x.cmd] + U16Bytes(|x.data| % 0x1_0000) + x.data
  }

  function GroupBytes(items: seq<Item>): seq<byte> {
    if items == [] then [] else GroupBytes(items[..|items| - 1]) + ItemBytes(items[|items| - 1])
  }

  /** The receiver's splitter: stops at the first item that does not fit. */
  function Split(payload: seq<byte>): seq<Item> {
    if |payload| < 3 then []
    else
      var size := U16(payload[1], payload[2]);
      if 3 + size > |payload| then []
      else [Item(payload[0], payload[3..3 + size])] + Split(payload[3 + size..])
  }

  method SplitGroup(payload: seq<byte>) returns (items: seq<Item>)
    ensures items == Split(payload)
  {
    hide U16, Split;
    items := [];
    var pos := 0;
    assert payload[0..] == payload && [] + Split(payload) == Split(payload);
    while pos + 3 <= |payload|
      invariant 0 <= pos <= |payload| && items + Split(payload[pos..]) == Split(payload)
      decreases |payload| - pos
    {
      SplitStep(items, payload, pos);
      var cmd := payload[pos];
      var size := U16(payload[pos + 1], payload[pos + 2]);
      if pos + 3 + size > |payload| {
        return;
      }
      items := items + [Item(cmd, payload[pos + 3..pos + 3 + size])];
      pos := pos + 3 + size;
    }
    SplitShort(items, payload[pos..]);
  }

  lemma {:induction false} SplitShort(items: seq<Item>, payload: seq<byte>)
    requires |payload| < 3
    ensures items + Split(payload) == items
  {
  }

  lemma {:induction false} SplitStep(items: seq<Item>, payload: seq<byte>, pos: nat)
    requires pos + 3 <= |payload|
    ensures
      var size := U16(payload[pos + 1], payload[pos + 2]);
      items + Split(payload[pos..]) ==
        if pos + 3 + size > |payload| then items
        else (items + [Item(payload[pos], payload[pos + 3..pos + 3 + size])]) + Split(payload[pos + 3 + size..])
  {
    hide U16, Split;
    var rest, size := payload[pos..], U16(payload[pos + 1], payload[pos + 2]);
    SplitUnfold(rest);
    assert rest[0] == payload[pos] && rest[1] == payload[pos + 1] && rest[2] == payload[pos + 2];
    if pos + 3 + size <= |payload| {
      var x, tail := Item(payload[pos], payload[pos + 3..pos + 3 + size]), payload[pos + 3 + size..];
      assert rest[3..3 + size] == x.data && rest[3 + size..] == tail;
      assert items + ([x] + Split(tail)) == (items + [x]) + Split(tail);
    }
  }

  lemma {:induction false} SplitUnfold(payload: seq<byte>)
    requires |payload| >= 3
    ensures
      var size := U16(payload[1], payload[2]);
      Split(payload) ==
        if 3 + size > |payload| then [] else [Item(payload[0], payload[3..3 + size])] + Split(payload[3 + size..])
  {
    hide U16;
  }

  /** All commands of a packet as the receiver sees them. */
  function Commands(p: Packet): seq<Item> {
    if p.cmd & 0x7F != GROUPED then [Item(p.cmd, p.payload)]
    else if p.cmd & 0x80 != 0 then []
    else Split(p.payload)
  }

  ghost predicate Short(items: seq<Item>) {
    forall i :: 0 <= i < |items| ==> |items[i].data| < 0x1_0000
  }

  lemma {:induction false} SplitFirst(x: Item, rest: seq<byte>)
    requires |x.data| < 0x1_0000
    ensures Split(ItemBytes(x) + rest) == [x] + Split(rest)
  {
    hide U16, U16Bytes;
    var size := U16Bytes(|x.data|);
    var p := ItemBytes(x) + rest;
    assert |x.data| % 0x1_0000 == |x.data|;
    assert p[0] == x.cmd && p[1] == size[0] && p[2] == size[1];
    assert p[3..3 + |x.data|] == x.data && p[3 + |x.data|..] == rest;
  }

  lemma {:induction false} GroupFirst(items: seq<Item>)
    requires items != []
    ensures GroupBytes(items) == ItemBytes(items[0]) + GroupBytes(items[1..])
  {
    hide ItemBytes, GroupBytes;
    var last := |items| - 1;
    GroupLast(items);
    if last == 0 {
      NoGroup();
      assert items[..0] == [] && items[1..] == [];
    } else {
      var middle := items[1..][..last - 1];
      GroupFirst(items[..last]);
      GroupLast(items[1..]);
      assert items[..last][1..] == middle && items[1..][last - 1] == items[last];
      assert (ItemBytes(items[0]) + GroupBytes(middle)) + ItemBytes(items[last])
        == ItemBytes(items[0]) + (GroupBytes(middle) + ItemBytes(items[last]));
    }
  }

  lemma {:induction false} NoGroup()
    ensures GroupBytes([]) == []
  {
  }

  lemma {:induction false} GroupLast(items: seq<Item>)
    requires items != []
    ensures GroupBytes(items) == GroupBytes(items[..|items| - 1]) + ItemBytes(items[|items| - 1])
  {
    hide ItemBytes;
  }

  /** Splitting undoes grouping. */
  lemma {:induction false} SplitUndoes(items: seq<Item>)
    requires Short(items)
    ensures Split(GroupBytes(items)) == items
  {
    hide Split, ItemBytes;
    if items == [] {
      SplitNothing();
    } else {
      GroupFirst(items);
      SplitFirst(items[0], GroupBytes(items[1..]));
      SplitUndoes(items[1..]);
    }
  }

  lemma {:induction false} SplitNothing()
    ensures Split([]) == []
  {
  }

  // The sender's choice, on whole commands.

  /** A command sent on its own at once, or a flushed batch. */
  datatype Emit = Direct(item: Item) | Group(items: seq<Item>)

  function Accounted(x: Item): nat {
    |x.data| + 15 + 3
  }

  function Size(items: seq<Item>): nat {
    if items == [] then 0 else Size(items[..|items| - 1]) + Accounted(items[|items| - 1])
  }

  function Flushed(pending: seq<Item>): seq<Emit> {
    if pending == [] then [] else [Group(pending)]
  }

  /** What one command does to the batch. */
  function Offer(pending: seq<Item>, x: Item, pmtu: nat): (r: (seq<Item>, seq<Emit>)) {
    if Size(pending) + Accounted(x) > pmtu then
      if Size(pending) > Accounted(x) then ([x], Flushed(pending)) else (pending, [Direct(x)])
    else (pending + [x], [])
  }

  function OfferAll(pending: seq<Item>, items: seq<Item>, pmtu: nat): (r: (seq<Item>, seq<Emit>))
    decreases |items|
  {
    if items == [] then (pending, [])
    else
      var (pending1, out1) := Offer(pending, items[0], pmtu);
      var (pending2, out2) := OfferAll(pending1, items[1..], pmtu);
      (pending2, out1 + out2)
  }

  /** Everything given to the sender in one tick, and the final flush. */
  function Emitted(items: seq<Item>, pmtu: nat): seq<Emit> {
    OfferAll([], items, pmtu).1 + Flushed(OfferAll([], items, pmtu).0)
  }

  function Wire(e: Emit): Packet {
    match e
    case Direct(x) => Packet(x.cmd, x.data)
    case Group(items) =>
      if |items| == 1 then Packet(items[0].cmd, items[0].data) else Packet(GROUPED, GroupBytes(items))
  }

  function Grouped(out: seq<Emit>): seq<Item> {
    if out == [] then [] else (if out[0].Group? then out[0].items else []) + Grouped(out[1..])
  }

  function Directs(out: seq<Emit>): seq<Item> {
    if out == [] then [] else (if out[0].Direct? then [out[0].item] else []) + Directs(out[1..])
  }

  /** `all` is a merge of `a` and `b`, each in its own order. */
  ghost predicate Merges(all: seq<Item>, a: seq<Item>, b: seq<Item>) {
    if all == [] then a == [] && b == []
    else
      || (a != [] && a[0] == all[0] && Merges(all[1..], a[1..], b))
      || (b != [] && b[0] == all[0] && Merges(all[1..], a, b[1..]))
  }

  lemma {:induction false} GroupedSum(a: seq<Emit>, b: seq<Emit>)
    ensures Grouped(a + b) == Grouped(a) + Grouped(b) && Directs(a + b) == Directs(a) + Directs(b)
  {
    hide Grouped, Directs;
    if a == [] {
      assert a + b == b;
      NoParts();
    } else {
      assert (a + b)[0] == a[0] && (a + b)[1..] == a[1..] + b;
      GroupedSum(a[1..], b);
      PartsFirst(a);
      PartsFirst(a + b);
    }
  }

  lemma {:induction false} NoParts()
    ensures Grouped([]) == [] && Directs([]) == []
  {
  }

  lemma {:induction false} PartsFirst(out: seq<Emit>)
    requires out != []
    ensures Grouped(out) == (if out[0].Group? then out[0].items else []) + Grouped(out[1..])
    ensures Directs(out) == (if out[0].Direct? then [out[0].item] else []) + Directs(out[1..])
  {
  }

  lemma {:induction false} FlushedParts(pending: seq<Item>)
    ensures Grouped(Flushed(pending)) == pending && Directs(Flushed(pending)) == []
  {
    if pending != [] {
      assert Flushed(pending)[1..] == [];
    }
  }

  /** One command is buffered behind what was pending, or sent directly. */
  lemma {:induction false} OfferParts(pending: seq<Item>, x: Item, pmtu: nat) returns (direct: bool)
    ensures
      var (pending', out) := Offer(pending, x, pmtu);
      && Grouped(out) + pending' == pending + (if direct then [] else [x])
      && Directs(out) == if direct then [x] else []
  {
    hide Size, Accounted;
    FlushedParts(pending);
    DirectParts(x);
    direct := Size(pending) + Accounted(x) > pmtu && Size(pending) <= Accounted(x);
    assert [] + pending == pending + [] && [] + (pending + [x]) == pending + [x];
  }

  lemma {:induction false} MergeHead(items: seq<Item>, a: seq<Item>, b: seq<Item>)
    requires items != [] && Merges(items[1..], a, b)
    ensures Merges(items, [items[0]] + a, b) && Merges(items, a, [items[0]] + b)
  {
    assert ([items[0]] + a)[1..] == a && ([items[0]] + b)[1..] == b;
  }

  /** From any batch: what was pending, then the buffered commands in order, and the direct ones in order. */
  lemma {:induction false} OfferAllMerges(pending: seq<Item>, items: seq<Item>, pmtu: nat) returns (buffered: seq<Item>)
    ensures
      var (pending', out) := OfferAll(pending, items, pmtu);
      Grouped(out) + pending' == pending + buffered && Merges(items, buffered, Directs(out))
    decreases |items|
  {
    hide Offer, Merges, Grouped, Directs;
    if items == [] {
      buffered := [];
      NothingEmitted();
      assert [] + pending == pending + [];
    } else {
      var x := items[0];
      var (pending1, out1) := Offer(pending, x, pmtu);
      var (pending2, out2) := OfferAll(pending1, items[1..], pmtu);
      var rest := OfferAllMerges(pending1, items[1..], pmtu);
      var direct := OfferParts(pending, x, pmtu);
      GroupedSum(out1, out2);
      MergeHead(items, rest, Directs(out2));
      buffered := if direct then rest else [x] + rest;
      var first := if direct then [] else [x];
      calc {
        (Grouped(out1) + Grouped(out2)) + pending2;
        Grouped(out1) + (Grouped(out2) + pending2);
        Grouped(out1) + (pending1 + rest);
        (Grouped(out1) + pending1) + rest;
        (pending + first) + rest;
        pending + (first + rest);
      }
      assert first + rest == buffered && [] + Directs(out2) == Directs(out2);
    }
  }

  lemma {:induction false} NothingEmitted()
    ensures Grouped([]) == [] && Directs([]) == [] && Merges([], [], [])
  {
  }

  lemma {:induction false} DirectParts(x: Item)
    ensures Grouped([Direct(x)]) == [] && Directs([Direct(x)]) == [x]
  {
    assert [Direct(x)][1..] == [];
  }

  /**
   A tick emits every command exactly once: the buffered ones in their order, the direct ones in theirs;
   only a direct command can overtake a buffered one.
   */
  lemma {:induction false} EmittedMerges(items: seq<Item>, pmtu: nat)
    ensures Merges(items, Grouped(Emitted(items, pmtu)), Directs(Emitted(items, pmtu)))
  {
    var (pending, out) := OfferAll([], items, pmtu);
    var buffered := OfferAllMerges([], items, pmtu);
    GroupedSum(out, Flushed(pending));
    FlushedParts(pending);
    assert [] + buffered == buffered && Directs(out) + [] == Directs(out);
  }

  lemma {:induction false} MergesBag(all: seq<Item>, a: seq<Item>, b: seq<Item>)
    requires Merges(all, a, b)
    ensures multiset(all) == multiset(a) + multiset(b)
  {
    if all != [] {
      assert all == [all[0]] + all[1..];
      if a != [] && a[0] == all[0] && Merges(all[1..], a[1..], b) {
        MergesBag(all[1..], a[1..], b);
        assert a == [a[0]] + a[1..];
      } else {
        MergesBag(all[1..], a, b[1..]);
        assert b == [b[0]] + b[1..];
      }
    }
  }

  // Packets fit, and nothing is lost on the wire.

  ghost predicate GroupsFit(out: seq<Emit>, pmtu: nat) {
    forall i :: 0 <= i < |out| && out[i].Group? ==> out[i].items != [] && Size(out[i].items) <= pmtu
  }

  lemma {:induction false} OfferFits(pending: seq<Item>, x: Item, pmtu: nat)
    requires Size(pending) <= pmtu
    ensures Size(Offer(pending, x, pmtu).0) <= pmtu && GroupsFit(Offer(pending, x, pmtu).1, pmtu)
  {
    assert [x][..0] == [];
    assert (pending + [x])[..|pending|] == pending;
  }

  lemma {:induction false} OfferAllFits(pending: seq<Item>, items: seq<Item>, pmtu: nat)
    requires Size(pending) <= pmtu
    ensures Size(OfferAll(pending, items, pmtu).0) <= pmtu && GroupsFit(OfferAll(pending, items, pmtu).1, pmtu)
    decreases |items|
  {
    hide Offer, Size;
    if items != [] {
      OfferFits(pending, items[0], pmtu);
      OfferAllFits(Offer(pending, items[0], pmtu).0, items[1..], pmtu);
    }
  }

  lemma {:induction false} GroupSize(items: seq<Item>)
    ensures |GroupBytes(items)| + 15 * |items| == Size(items)
  {
    hide ItemBytes;
    if items != [] {
      GroupSize(items[..|items| - 1]);
    }
  }

  lemma {:induction false} SizeCoversEach(items: seq<Item>, i: nat)
    requires i < |items|
    ensures Accounted(items[i]) <= Size(items)
  {
    if i < |items| - 1 {
      SizeCoversEach(items[..|items| - 1], i);
    }
  }

  /** A batch that fits its account fits the packet, 15 bytes of packet header included, and its lengths fit 16 bits. */
  lemma {:induction false} GroupFits(items: seq<Item>, pmtu: nat)
    requires items != [] && Size(items) <= pmtu < 0x1_0000
    ensures |Wire(Group(items)).payload| + 15 <= pmtu && Short(items)
  {
    hide GroupBytes, Size;
    GroupSize(items);
    forall i | 0 <= i < |items| ensures |items[i].data| < 0x1_0000 {
      SizeCoversEach(items, i);
    }
    SizeCoversEach(items, 0);
  }

  function ItemsOf(e: Emit): seq<Item> {
    match e
    case Direct(x) => [x]
    case Group(items) => items
  }

  function AllItems(out: seq<Emit>): seq<Item> {
    if out == [] then [] else ItemsOf(out[0]) + AllItems(out[1..])
  }

  function WireAll(out: seq<Emit>): seq<Packet> {
    if out == [] then [] else [Wire(out[0])] + WireAll(out[1..])
  }

  /** All commands the receiver gets out of a run of packets. */
  function Received(packets: seq<Packet>): seq<Item> {
    if packets == [] then [] else Commands(packets[0]) + Received(packets[1..])
  }

  predicate GroupCommand(x: Item) {
    x.cmd & 0x7F == GROUPED
  }

  /** A packet with a single command carries its command byte, which the receiver must not take for a group. */
  predicate Told(e: Emit) {
    |ItemsOf(e)| == 1 ==> !GroupCommand(ItemsOf(e)[0])
  }

  ghost predicate AllTold(out: seq<Emit>) {
    forall i :: 0 <= i < |out| ==> Told(out[i])
  }

  ghost predicate FitsOne(e: Emit, pmtu: nat) {
    e.Group? ==> e.items != [] && Size(e.items) <= pmtu
  }

  lemma {:induction false} CommandsOfWire(e: Emit, pmtu: nat)
    requires Told(e) && pmtu < 0x1_0000 && FitsOne(e, pmtu)
    ensures Commands(Wire(e)) == ItemsOf(e)
  {
    hide Split, GroupBytes, Size;
    if e.Group? {
      GroupFits(e.items, pmtu);
      SplitUndoes(e.items);
      GroupedIsPlain();
      if |e.items| == 1 {
        assert e.items == [Item(e.items[0].cmd, e.items[0].data)];
      }
    }
  }

  lemma {:induction false} GroupedIsPlain()
    ensures GROUPED & 0x7F == GROUPED && GROUPED & 0x80 == 0
  {
  }

  /** The bytes commands take in a group. */
  function Weight(items: seq<Item>): nat {
    if items == [] then 0 else |items[0].data| + 3 + Weight(items[1..])
  }

  lemma {:induction false} WeightSum(a: seq<Item>, b: seq<Item>)
    ensures Weight(a + b) == Weight(a) + Weight(b)
  {
    if a == [] {
      assert a + b == b;
    } else {
      assert (a + b)[0] == a[0] && (a + b)[1..] == a[1..] + b;
      WeightSum(a[1..], b);
    }
  }

  lemma {:induction false} WeightBag(a: seq<Item>, b: seq<Item>)
    requires multiset(a) == multiset(b)
    ensures Weight(a) == Weight(b)
  {
    hide Weight;
    if a == [] {
      NoItems(b);
    } else {
      var j := Holder(a[0], a, b);
      var a', b' := Dropped(a, 0), Dropped(b, j);
      TakeOne(a, 0);
      TakeOne(b, j);
      WeightBag(a', b');
    }
  }

  lemma {:induction false} NoItems(b: seq<Item>)
    requires multiset(b) == multiset([])
    ensures b == []
  {
    assert |multiset(b)| == |b|;
  }

  lemma {:induction false} Holder(x: Item, a: seq<Item>, b: seq<Item>) returns (j: nat)
    requires x in a && multiset(a) == multiset(b)
    ensures j < |b| && b[j] == x
  {
    assert x in multiset(a) && x in multiset(b);
    j :| 0 <= j < |b| && b[j] == x;
  }

  function Dropped(b: seq<Item>, j: nat): (r: seq<Item>)
    requires j < |b|
    ensures |r| == |b| - 1
  {
    b[..j] + b[j + 1..]
  }

  lemma {:induction false} TakeOne(b: seq<Item>, j: nat)
    requires j < |b|
    ensures multiset(Dropped(b, j)) == multiset(b) - multiset{b[j]}
    ensures Weight(b) == |b[j].data| + 3 + Weight(Dropped(b, j))
  {
    var front, back := b[..j], b[j + 1..];
    assert b == front + ([b[j]] + back);
    WeightSum(front, [b[j]] + back);
    WeightSum(front, back);
    assert ([b[j]] + back)[1..] == back;
  }

  lemma {:induction false} SplitWeight(payload: seq<byte>)
    ensures Weight(Split(payload)) <= |payload|
  {
    hide U16;
    if |payload| >= 3 {
      var size := U16(payload[1], payload[2]);
      if 3 + size <= |payload| {
        SplitWeight(payload[3 + size..]);
        assert Split(payload)[1..] == Split(payload[3 + size..]);
      }
    }
  }

  /** A group command on its own arrives as something lighter. */
  lemma {:induction false} UntoldLoses(e: Emit)
    requires !Told(e)
    ensures Weight(Commands(Wire(e))) < Weight(ItemsOf(e))
  {
    hide Split;
    var x := ItemsOf(e)[0];
    assert ItemsOf(e) == [x] && Wire(e) == Packet(x.cmd, x.data);
    SplitWeight(x.data);
    assert ItemsOf(e)[1..] == [];
  }

  lemma {:induction false} ReceivedWeight(out: seq<Emit>, pmtu: nat)
    requires GroupsFit(out, pmtu) && pmtu < 0x1_0000
    ensures Weight(Received(WireAll(out))) <= Weight(AllItems(out))
    ensures !AllTold(out) ==> Weight(Received(WireAll(out))) < Weight(AllItems(out))
  {
    hide Commands, Wire, Size, Weight, Told;
    if out != [] {
      var e, rest := out[0], out[1..];
      assert FitsOne(e, pmtu);
      ReceivedWeight(rest, pmtu);
      WireFirst(out);
      WeightSum(Commands(Wire(e)), Received(WireAll(rest)));
      WeightSum(ItemsOf(e), AllItems(rest));
      if Told(e) {
        CommandsOfWire(e, pmtu);
        assert AllTold(rest) ==> AllTold(out);
      } else {
        UntoldLoses(e);
      }
    }
  }

  lemma {:induction false} WireFirst(out: seq<Emit>)
    requires out != []
    ensures Received(WireAll(out)) == Commands(Wire(out[0])) + Received(WireAll(out[1..]))
  {
    hide Commands, Wire;
    assert WireAll(out)[0] == Wire(out[0]) && WireAll(out)[1..] == WireAll(out[1..]);
  }

  lemma {:induction false} ReceivedAll(out: seq<Emit>, pmtu: nat)
    requires GroupsFit(out, pmtu) && pmtu < 0x1_0000 && AllTold(out)
    ensures Received(WireAll(out)) == AllItems(out)
  {
    hide Commands, Wire, Size, Told;
    if out != [] {
      assert FitsOne(out[0], pmtu) && Told(out[0]);
      CommandsOfWire(out[0], pmtu);
      WireFirst(out);
      ReceivedAll(out[1..], pmtu);
    }
  }

  lemma {:induction false} AllItemsBag(out: seq<Emit>)
    ensures multiset(AllItems(out)) == multiset(Grouped(out)) + multiset(Directs(out))
  {
    if out != [] {
      AllItemsBag(out[1..]);
    }
  }

  /**
   For any commands and any PMTU the receiver gets exactly the bag of commands that was given, if and only
   if no packet with a single command carries a group command. Groups fit the PMTU.
   */
  lemma {:induction false} BatchingConserves(items: seq<Item>, pmtu: nat)
    requires pmtu < 0x1_0000
    ensures multiset(Received(WireAll(Emitted(items, pmtu)))) == multiset(items) <==> AllTold(Emitted(items, pmtu))
    ensures GroupsFit(Emitted(items, pmtu), pmtu)
  {
    hide OfferAll, Merges, Grouped, Directs, AllItems, Received, WireAll, AllTold, Weight;
    var out := Emitted(items, pmtu);
    EmittedMerges(items, pmtu);
    MergesBag(items, Grouped(out), Directs(out));
    AllItemsBag(out);
    OfferAllFits([], items, pmtu);
    if AllTold(out) {
      ReceivedAll(out, pmtu);
    } else {
      ReceivedWeight(out, pmtu);
      WeightBag(AllItems(out), items);
      if multiset(Received(WireAll(out))) == multiset(items) {
        WeightBag(Received(WireAll(out)), items);
        assert false;
      }
    }
  }

  /** Commands that are not themselves groups. */
  ghost predicate Plain(items: seq<Item>) {
    forall x :: x in items ==> !GroupCommand(x)
  }

  /** Commands that are not groups meet the condition at every PMTU. */
  lemma {:induction false} PlainTold(items: seq<Item>, pmtu: nat)
    requires Plain(items)
    ensures AllTold(Emitted(items, pmtu))
  {
    hide OfferAll, Merges, Grouped, Directs, GroupCommand;
    var out := Emitted(items, pmtu);
    EmittedMerges(items, pmtu);
    MergesBag(items, Grouped(out), Directs(out));
    AllItemsBag(out);
    forall i | 0 <= i < |out| ensures Told(out[i]) {
      if |ItemsOf(out[i])| == 1 {
        var x := ItemsOf(out[i])[0];
        AllItemsHas(out, i, x);
        assert x in multiset(AllItems(out)) && x in multiset(items);
      }
    }
  }

  lemma {:induction false} AllItemsHas(out: seq<Emit>, i: nat, x: Item)
    requires i < |out| && x in ItemsOf(out[i])
    ensures x in AllItems(out)
  {
    if i > 0 {
      AllItemsHas(out[1..], i - 1, x);
    }
  }

  /** The condition can fail: a group command given alone is sent as it is, and the receiver splits it. */
  lemma {:induction false} LoneGroupLost(data: seq<byte>)
    requires |data| < 3
    ensures Received(WireAll(Emitted([Item(GROUPED, data)], 100))) == []
  {
    hide GroupBytes;
    var x := Item(GROUPED, data);
    var items := [x];
    assert items[1..] == [] && [] + items == items;
    assert Offer([], x, 100) == (items, []);
    OfferAllFirst([], items, 0, 100);
    OfferNone(items, 100);
    assert items[0..] == items && OfferAll([], items, 100) == (items, []);
    var out := Emitted(items, 100);
    assert out == [Group(items)] && out[1..] == [];
    GroupedIsPlain();
    WireFirst(out);
    assert Split(data) == [] && Received(WireAll([])) == [];
  }

  // The object.

  class DirectSender {
    var tmpSendBuf: seq<byte>
    var tmpSendCount: nat
    var tmpSendSize: nat
    /** Packets handed to the socket, in order. */
    var sent: seq<Packet>
    /** The commands in the buffer. */
    ghost var pending: seq<Item>

    ghost predicate Valid()
      reads this
    {
      tmpSendBuf == GroupBytes(pending) && tmpSendCount == |pending| && tmpSendSize == Size(pending)
    }

    constructor ()
      ensures Valid() && pending == [] && sent == []
    {
      tmpSendBuf, tmpSendCount, tmpSendSize, sent, pending := [], 0, 0, [], [];
    }

    method FlushSendBatch()
      requires Valid() && Short(pending)
      modifies this
      ensures Valid() && pending == [] && sent == old(sent) + WireAll(Flushed(old(pending)))
    {
      hide ItemBytes;
      if tmpSendCount == 0 {
        assert sent == sent + [];
        return;
      }
      if tmpSendCount > 1 {
        sent := sent + [Packet(GROUPED, tmpSendBuf)];
      } else {
        SingleBytes(pending);
        if |tmpSendBuf| >= 3 {
          sent := sent + [Packet(tmpSendBuf[0], tmpSendBuf[3..])];
        }
      }
      WireOne(Group(pending));
      tmpSendBuf, tmpSendCount, tmpSendSize, pending := [], 0, 0, [];
    }

    method PushTmpSendItem(x: Item)
      requires Valid()
      modifies this
      ensures Valid() && pending == old(pending) + [x] && sent == old(sent)
    {
      assert (pending + [x])[..|pending|] == pending;
      tmpSendBuf := tmpSendBuf + ([x.cmd] + U16Bytes(|x.data| % 0x1_0000) + x.data);
      tmpSendCount := tmpSendCount + 1;
      tmpSendSize := tmpSendSize + Accounted(x);
      pending := pending + [x];
    }

    method DoSendMpDataWire(x: Item, actualPmtu: nat)
      requires Valid() && Size(pending) <= actualPmtu < 0x1_0000
      modifies this
      ensures Valid() && Size(pending) <= actualPmtu
      ensures pending == Offer(old(pending), x, actualPmtu).0
      ensures sent == old(sent) + WireAll(Offer(old(pending), x, actualPmtu).1)
    {
      hide Size, GroupBytes;
      OfferFits(pending, x, actualPmtu);
      ShortPending(pending, actualPmtu);
      if tmpSendSize + Accounted(x) > actualPmtu {
        if tmpSendSize > Accounted(x) {
          FlushSendBatch();
          PushTmpSendItem(x);
          assert [] + [x] == [x];
        } else {
          WireOne(Direct(x));
          sent := sent + [Packet(x.cmd, x.data)];
        }
      } else {
        PushTmpSendItem(x);
        assert sent == sent + [];
      }
    }

    /** The commands of one tick, and the flush that ends it. */
    method SendTick(items: seq<Item>, actualPmtu: nat)
      requires Valid() && pending == [] && actualPmtu < 0x1_0000
      modifies this
      ensures Valid() && pending == [] && sent == old(sent) + WireAll(Emitted(items, actualPmtu))
      ensures multiset(Received(sent[|old(sent)|..])) == multiset(items) <==> AllTold(Emitted(items, actualPmtu))
    {
      hide Size, GroupBytes, Offer, OfferAll, WireAll, Received, Flushed, Emitted, AllTold;
      ghost var out: seq<Emit> := [];
      WireNone();
      assert items[0..] == items;
      SizeNone();
      for i := 0 to |items|
        invariant Valid() && Size(pending) <= actualPmtu && sent == old(sent) + WireAll(out)
        invariant OfferAll([], items, actualPmtu).0 == OfferAll(pending, items[i..], actualPmtu).0
        invariant OfferAll([], items, actualPmtu).1 == out + OfferAll(pending, items[i..], actualPmtu).1
      {
        OfferAllFirst(pending, items, i, actualPmtu);
        ghost var e := Offer(pending, items[i], actualPmtu).1;
        DoSendMpDataWire(items[i], actualPmtu);
        WireAllSum(out, e);
        out := out + e;
      }
      OfferNone(pending, actualPmtu);
      assert items[|items|..] == [] && out + [] == out;
      assert OfferAll([], items, actualPmtu).0 == pending && OfferAll([], items, actualPmtu).1 == out;
      WireAllSum(out, Flushed(pending));
      ShortPending(pending, actualPmtu);
      FlushSendBatch();
      EmittedIs(items, actualPmtu);
      BatchingConserves(items, actualPmtu);
      assert sent[|old(sent)|..] == WireAll(Emitted(items, actualPmtu));
    }
  }

  lemma {:induction false} EmittedIs(items: seq<Item>, pmtu: nat)
    ensures Emitted(items, pmtu) == OfferAll([], items, pmtu).1 + Flushed(OfferAll([], items, pmtu).0)
  {
  }

  lemma {:induction false} SizeNone()
    ensures Size([]) == 0
  {
  }

  lemma {:induction false} WireNone()
    ensures WireAll([]) == []
  {
  }

  lemma {:induction false} WireAllSum(a: seq<Emit>, b: seq<Emit>)
    ensures WireAll(a + b) == WireAll(a) + WireAll(b)
  {
    hide Wire;
    if a == [] {
      assert a + b == b;
    } else {
      assert (a + b)[0] == a[0] && (a + b)[1..] == a[1..] + b;
      WireAllSum(a[1..], b);
    }
  }

  lemma {:induction false} OfferNone(pending: seq<Item>, pmtu: nat)
    ensures OfferAll(pending, [], pmtu) == (pending, [])
  {
  }

  lemma {:induction false} OfferAllFirst(pending: seq<Item>, items: seq<Item>, i: nat, pmtu: nat)
    requires i < |items|
    ensures
      var (next, out) := Offer(pending, items[i], pmtu);
      && OfferAll(pending, items[i..], pmtu).0 == OfferAll(next, items[i + 1..], pmtu).0
      && OfferAll(pending, items[i..], pmtu).1 == out + OfferAll(next, items[i + 1..], pmtu).1
  {
    hide Offer;
    assert items[i..][0] == items[i] && items[i..][1..] == items[i + 1..];
  }

  lemma {:induction false} WireOne(e: Emit)
    ensures WireAll([e]) == [Wire(e)]
  {
    assert [e][1..] == [];
  }

  lemma {:induction false} SingleBytes(items: seq<Item>)
    requires |items| == 1
    ensures |GroupBytes(items)| >= 3 && GroupBytes(items)[0] == items[0].cmd && GroupBytes(items)[3..] == items[0].data
  {
    assert items[..0] == [] && [] + ItemBytes(items[0]) == ItemBytes(items[0]);
  }

  lemma {:induction false} ShortPending(items: seq<Item>, pmtu: nat)
    requires Size(items) <= pmtu < 0x1_0000
    ensures Short(items)
  {
    hide Size;
    if items != [] {
      GroupFits(items, pmtu);
    }
  }
}
