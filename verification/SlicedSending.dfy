/** The sender as an object whose list, clocks and counters change in place (src/client/protocol_sliced_send.rs). */
module SlicedSending {
  import opened Bytes
  import opened Numbers
  import opened Flags
  import opened Lists
  import opened SentDatagrams
  import opened KeyedLists
  import opened AckConfluence
  import opened SlicedRetry
  import opened SlicedSender
  import opened SenderRuns

  /** Union of the flags, byte by byte, and whether any bit is new. */
  method MergeAckFlags(mine: Flags256, flags: Flags256) returns (merged: Flags256, changed: bool)
    ensures merged == Union(mine, flags) && changed == (merged != mine)
  {
    var bytes := mine;
    changed := false;
    for i := 0 to 32
      invariant |bytes| == 32 && bytes[i..] == mine[i..]
      invariant forall j :: 0 <= j < i ==> bytes[j] == mine[j] | flags[j]
      invariant changed <==> exists j :: 0 <= j < i && bytes[j] != mine[j]
    {
      var before := bytes[i];
      bytes := bytes[i := before | flags[i]];
      changed := changed || before != bytes[i];
    }
    merged := bytes;
    assert merged == Union(mine, flags);
  }

  /** The blocks of one datagram that are due, marked and sent until the budget is used up. */
  method SendDueBlocks(s0: Sent, prev: int, cur: int, delay: int, bytes0: nat, limit: nat) returns (r: Sending)
    requires s0.Shaped()
    ensures r == SendDue(s0, 0, prev, cur, delay, bytes0, limit)
  {
    hide Has, Mark;
    var s, retried := s0, false;
    var bytes: nat, b: nat, blocks: seq<nat> := bytes0, 0, [];
    while b < |s.slices|
      invariant s.Shaped() && b <= |s.slices|
      invariant SendDue(s0, 0, prev, cur, delay, bytes0, limit)
        == Resumed(s, b, prev, cur, delay, bytes, limit, blocks, retried)
      decreases |s.slices| - b
    {
      if Due(s, b, prev, cur, delay) {
        if bytes >= limit {
          break;
        }
        ResumedStep(s, b, prev, cur, delay, bytes, limit, blocks, retried);
        var wasRetry := s.clocks[b] > 0;
        var size := |s.slices[b]|;
        s := Mark(s, b, cur);
        retried := retried || wasRetry;
        blocks := blocks + [b];
        bytes := bytes + size;
      }
      b := b + 1;
    }
    assert blocks + [] == blocks;
    r := Sending(s, bytes, blocks, retried);
  }

  /** The outcome when blocks before `b` are done. */
  function Resumed(s: Sent, b: nat, prev: int, cur: int, delay: int, bytes: nat, limit: nat, blocks: seq<nat>,
      retried: bool): Sending
    requires s.Shaped() && b <= |s.slices|
  {
    var r := SendDue(s, b, prev, cur, delay, bytes, limit);
    r.(blocks := blocks + r.blocks, retried := retried || r.retried)
  }

  lemma {:induction false} ResumedStep(s: Sent, b: nat, prev: int, cur: int, delay: int, bytes: nat, limit: nat,
      blocks: seq<nat>, retried: bool)
    requires s.Shaped() && b < |s.slices| && Due(s, b, prev, cur, delay) && bytes < limit
    ensures Mark(s, b, cur).Shaped() && Mark(s, b, cur).slices == s.slices
    ensures Resumed(s, b, prev, cur, delay, bytes, limit, blocks, retried)
      == Resumed(Mark(s, b, cur), b + 1, prev, cur, delay, bytes + |s.slices[b]|, limit, blocks + [b],
                 retried || s.clocks[b] > 0)
  {
    var r := SendDue(Mark(s, b, cur), b + 1, prev, cur, delay, bytes + |s.slices[b]|, limit);
    assert blocks + ([b] + r.blocks) == (blocks + [b]) + r.blocks;
  }

  method VisitDatagram(s: Sent, cur: int, delay: int, bytes: nat, limit: nat) returns (v: Visited)
    requires s.Shaped()
    ensures v == Visit(s, cur, delay, bytes, limit)
  {
    hide SendDue, Refreshed;
    if Abs(cur - s.lastChecked) <= delay {
      return Visited(s, bytes, [], false);
    }
    var prev := s.lastChecked;
    var r := SendDueBlocks(s, prev, cur, delay, bytes, limit);
    var s' := r.s.(lastChecked := Refreshed(r.s, cur));
    if prev != s'.lastChecked && r.retried && Abs(s'.lastRetryInc - cur) > delay {
      s' := s'.(retryCount := s'.retryCount + 1, lastRetryInc := cur);
    }
    return Visited(s', r.bytes, r.blocks, true);
  }

  /** The outcome of a pass when the first part of the list is done. */
  function PassResumed(done: seq<Sent>, remove: seq<nat>, out: seq<Tx>, rest: Pass): Pass {
    rest.(list := Without(done, remove) + rest.list, out := out + rest.out)
  }

  lemma {:induction false} PassResumedStart(list: seq<Sent>, cur: int, delay: int, limit: nat)
    requires AllShaped(list)
    ensures RetryPass(list, cur, delay, 0, limit, cur)
      == PassResumed(list[..0], [], [], RetryPass(list[0..], cur, delay, 0, limit, cur))
  {
    hide RetryPass;
    var p := RetryPass(list, cur, delay, 0, limit, cur);
    assert list[0..] == list && list[..0] == [] && [] + p.list == p.list && [] + p.out == p.out;
  }

  lemma {:induction false} PassFirst(list: seq<Sent>, cur: int, delay: int, bytes: nat, limit: nat, oldest: int)
    requires AllShaped(list) && list != []
    ensures
      var v := Visit(list[0], cur, delay, bytes, limit);
      var oldest' := if v.examined then Min(oldest, v.s.lastChecked) else oldest;
      var rest := RetryPass(list[1..], cur, delay, v.bytes, limit, oldest');
      RetryPass(list, cur, delay, bytes, limit, oldest)
        == rest.(list := (if GivenUp(v) then [] else [v.s]) + rest.list, out := TxOf(v.s, v.blocks) + rest.out)
  {
    hide Visit, TxOf, GivenUp;
  }

  lemma {:induction false} PassResumedStep(done: seq<Sent>, remove: seq<nat>, out: seq<Tx>, rest: seq<Sent>, cur: int,
      delay: int, bytes: nat, limit: nat, oldest: int)
    requires AllShaped(rest) && rest != [] && Below(remove, |done|) && Rising(remove)
    ensures
      var v := Visit(rest[0], cur, delay, bytes, limit);
      PassResumed(done, remove, out, RetryPass(rest, cur, delay, bytes, limit, oldest))
      == PassResumed(done + [v.s], if GivenUp(v) then remove + [|done|] else remove, out + TxOf(v.s, v.blocks),
                     RetryPass(rest[1..], cur, delay, v.bytes, limit,
                               if v.examined then Min(oldest, v.s.lastChecked) else oldest))
  {
    hide Visit, TxOf, RetryPass, Without, GivenUp;
    var v := Visit(rest[0], cur, delay, bytes, limit);
    var oldest' := if v.examined then Min(oldest, v.s.lastChecked) else oldest;
    var p := RetryPass(rest[1..], cur, delay, v.bytes, limit, oldest');
    PassFirst(rest, cur, delay, bytes, limit, oldest);
    var kept := Without(done, remove);
    assert (out + TxOf(v.s, v.blocks)) + p.out == out + (TxOf(v.s, v.blocks) + p.out);
    if GivenUp(v) {
      WithoutLast(done, v.s, remove);
      assert [] + p.list == p.list;
    } else {
      WithoutAppend(done, v.s, remove);
      assert (kept + [v.s]) + p.list == kept + ([v.s] + p.list);
    }
  }

  lemma {:induction false} PassResumedEnd(done: seq<Sent>, remove: seq<nat>, out: seq<Tx>, cur: int, delay: int,
      bytes: nat, limit: nat, oldest: int, rest: seq<Sent>)
    requires rest == []
    ensures PassResumed(done, remove, out, RetryPass(rest, cur, delay, bytes, limit, oldest))
      == Pass(Without(done, remove), out, bytes, oldest)
  {
    assert Without(done, remove) + [] == Without(done, remove) && out + [] == out;
  }

  /** Walks the list once, then takes out the datagrams that were given up, last first. */
  method WalkList(list0: seq<Sent>, cur: int, delay: int, limit: nat) returns (p: Pass)
    requires AllShaped(list0)
    ensures p == RetryPass(list0, cur, delay, 0, limit, cur)
  {
    hide RetryPass, Visit, TxOf, PassResumed;
    var list := list0;
    var out: seq<Tx>, bytes: nat, remove: seq<nat>, oldest := [], 0, [], cur;
    var idx := 0;
    PassResumedStart(list0, cur, delay, limit);
    while idx < |list|
      invariant 0 <= idx <= |list| == |list0| && list[idx..] == list0[idx..]
      invariant Rising(remove) && Below(remove, idx)
      invariant RetryPass(list0, cur, delay, 0, limit, cur)
        == PassResumed(list[..idx], remove, out, RetryPass(list0[idx..], cur, delay, bytes, limit, oldest))
      decreases |list| - idx
    {
      assert list[idx] == list[idx..][0] == list0[idx..][0];
      PassResumedStep(list[..idx], remove, out, list0[idx..], cur, delay, bytes, limit, oldest);
      var v := VisitDatagram(list[idx], cur, delay, bytes, limit);
      assert list0[idx..][1..] == list0[idx + 1..];
      assert list[idx := v.s][..idx + 1] == list[..idx] + [v.s];
      assert list[idx := v.s][idx + 1..] == list[idx..][1..];
      list := list[idx := v.s];
      out := out + TxOf(v.s, v.blocks);
      bytes := v.bytes;
      if v.examined {
        oldest := Min(oldest, v.s.lastChecked);
        if v.s.retryCount > v.s.maxRetry {
          remove := remove + [idx];
        }
      }
      idx := idx + 1;
    }
    assert list[..idx] == list;
    PassResumedEnd(list, remove, out, cur, delay, bytes, limit, oldest, list0[idx..]);
    var kept := TakeOut(list, remove);
    p := Pass(kept, out, bytes, oldest);
  }

  class SenderObject {
    var sending: seq<Sent>
    var nextSerial: nat
    var lastCheckedSlices: int
    var rtt: int
    var tripDelayK: real
    var lastSetTripK: int
    var canSendRate: int
    var usedSlicedLimit: bool

    function State(): Sender
      reads this
    {
      Sender(sending, nextSerial, lastCheckedSlices, rtt, tripDelayK, lastSetTripK, canSendRate, usedSlicedLimit)
    }

    constructor ()
      ensures State() == Start() && Inv(State(), 0)
    {
      sending, nextSerial, lastCheckedSlices, rtt := [], 0, 0, 0;
      tripDelayK, lastSetTripK, canSendRate, usedSlicedLimit := 1.1, 0, 2 * 1024 * 1024, false;
      new;
      StartInv();
    }

    /** Older datagrams with the key of a new command go, one per command. */
    method ApplyUKeyCleanup(items: seq<Item>)
      modifies `sending
      ensures sending == CleanKeys(old(sending), items)
    {
      var i := 0;
      while i < |items|
        invariant 0 <= i <= |items|
        invariant CleanKeys(sending, items[i..]) == CleanKeys(old(sending), items)
      {
        if !items[i].key.IsNone() {
          sending := RemoveKey(sending, KeyOf, items[i].key);
        }
        assert items[i..][1..] == items[i + 1..];
        i := i + 1;
      }
    }

    method CreateSliced(item: Item)
      modifies `sending, `nextSerial, `lastCheckedSlices
      ensures State() == Create(old(State()), item)
    {
      if item.slices.None? {
        return;
      }
      var created := NewSent(nextSerial, item.slices.value, item.maxRetry, item.key);
      nextSerial := nextSerial + 1;
      var pos := Place(sending, |item.slices.value|);
      sending := sending[..pos] + [created] + sending[pos..];
      lastCheckedSlices := 0;
    }

    method ApplySlicedAck(ack: Ack, now: int)
      requires AllShaped(sending)
      modifies `sending
      ensures sending == ApplyAck(old(sending), ack, now)
    {
      hide Has, Union;
      var idx := Find(sending, ack.num);
      if idx < |sending| {
        var s := sending[idx];
        var merged, changed := MergeAckFlags(s.flags, ack.flags);
        if changed {
          s := s.(flags := merged, retryCount := 0);
          if Covers(s.flags, |s.slices|) {
            sending := sending[..idx] + sending[idx + 1..];
          } else {
            s := s.(lastChecked := Refreshed(s, now));
            sending := sending[idx := s];
          }
        }
      }
    }

    method RetrySliced(cur: int, avgDup: real, sleep: real) returns (out: seq<Tx>)
      requires AllShaped(sending)
      modifies this
      ensures (State(), out) == Tick(old(State()), cur, avgDup, sleep)
    {
      hide RetryPass, PathDelay, ClientLimit, Round, AdaptedK;
      out := [];
      if sending == [] || Abs(cur - lastCheckedSlices) <= RetryRtt(rtt) {
        return;
      }
      if Abs(cur - lastSetTripK) > 2000 {
        lastSetTripK := cur;
        tripDelayK := AdaptedK(tripDelayK, avgDup);
      }
      var delay, limit := PathDelay(RetryRtt(rtt), tripDelayK), LimitAt(State(), sleep);
      var p := WalkList(sending, cur, delay, limit);
      lastCheckedSlices := p.oldest;
      if p.bytes >= Round(limit as real * 0.8) {
        usedSlicedLimit := true;
      }
      sending := p.list;
      out := p.out;
    }

    method ApplyCopyAcks(acks: seq<Ack>, now: int)
      requires AllShaped(sending)
      modifies `sending
      ensures sending == ApplyAcks(old(sending), acks, now)
    {
      hide ApplyAck;
      var i := 0;
      while i < |acks|
        invariant 0 <= i <= |acks| && AllShaped(sending)
        invariant ApplyAcks(sending, acks[i..], now) == ApplyAcks(old(sending), acks, now)
      {
        assert acks[i..][1..] == acks[i + 1..];
        ApplySlicedAck(acks[i], now);
        i := i + 1;
      }
    }

    /** The part of a ping that sets the pace. */
    method OnPing(tripDelay: int, rs: real)
      modifies `rtt, `canSendRate, `usedSlicedLimit
      ensures State() == Ping(old(State()), tripDelay, rs)
    {
      rtt := tripDelay;
      if usedSlicedLimit {
        canSendRate := RateAfter(canSendRate, rs);
        usedSlicedLimit := false;
      }
    }

    /** One batch: keys first, then every new command, as the send phase orders them. */
    method SendBatch(items: seq<Item>, ghost now: int)
      requires Inv(State(), now) && 0 <= now && BatchOk(items)
      modifies this
      ensures State() == Step(old(State()), Batch(items), now) && Inv(State(), now)
    {
      hide Inv, BatchOk, KeysFree, CleanKeys, Create;
      ghost var st := State();
      ShapedOf(st, now);
      CleanKeysKeeps(st, items, now);
      ApplyUKeyCleanup(items);
      ghost var st1 := State();
      CreateAllKeeps(st1, items, now);
      var i := 0;
      while i < |items|
        invariant 0 <= i <= |items|
        invariant CreateAll(State(), items[i..]) == CreateAll(st1, items)
      {
        CreateSliced(items[i]);
        assert items[i..][1..] == items[i + 1..];
        i := i + 1;
      }
    }

    /** The sliced part of a send phase in its fixed order: new commands, acknowledgements, retry pass. */
    method CheckSeningData(items: seq<Item>, acks: seq<Ack>, cur: int, avgDup: real, sleep: real,
        ghost now: int) returns (out: seq<Tx>)
      requires Inv(State(), now) && 0 <= now <= cur && BatchOk(items)
      modifies this
      ensures Inv(State(), cur)
      ensures AllShaped(old(sending)) && AllShaped(PhaseStart(old(State()), items, acks, cur).sending)
      ensures (State(), out) == Tick(PhaseStart(old(State()), items, acks, cur), cur, avgDup, sleep)
    {
      hide Inv, BatchOk, Tick, ApplyAcks;
      ShapedOf(State(), now);
      LaterInv(State(), now, cur);
      SendBatch(items, cur);
      AcksKeep(State(), acks, cur);
      ShapedOf(State(), cur);
      ghost var st := State();
      ApplyCopyAcks(acks, cur);
      assert State() == st.(sending := ApplyAcks(st.sending, acks, cur));
      ShapedOf(State(), cur);
      TickKeeps(State(), cur, avgDup, sleep);
      out := RetrySliced(cur, avgDup, sleep);
    }
  }

  /** The sender when the retry pass begins. */
  function PhaseStart(st: Sender, items: seq<Item>, acks: seq<Ack>, cur: int): Sender
    requires AllShaped(st.sending)
  {
    var st1 := Step(st, Batch(items), cur);
    if AllShaped(st1.sending) then Step(st1, Acks(acks), cur) else st1
  }

  lemma {:induction false} LaterInv(st: Sender, now: int, later: int)
    requires Inv(st, now) && now <= later
    ensures Inv(st, later)
  {
    hide Live;
  }

  lemma {:induction false} ShapedOf(st: Sender, now: int)
    requires Inv(st, now)
    ensures AllShaped(st.sending)
  {
    hide SentBy;
  }
}
