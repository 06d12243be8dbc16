/**
 The retry pass over the sent datagrams: which blocks go out in one tick, under a byte budget
 (src/client/protocol_sliced_send.rs).
 */
module SlicedRetry {
  import opened Bytes
  import opened Numbers
  import opened Flags
  import opened SentDatagrams

  // Sending the due blocks of one datagram.

  /** A missing block whose clock is the datagram's own, older than the delay. */
  predicate Due(s: Sent, b: nat, prev: int, cur: int, delay: int)
    requires b < |s.clocks| <= 256
  {
    !Has(s.flags, b) && s.clocks[b] == prev && Abs(cur - s.clocks[b]) > delay
  }

  /** What a pass did to one datagram: the datagram, the bytes used so far and the blocks sent. */
  datatype Sending = Sending(s: Sent, bytes: nat, blocks: seq<nat>, retried: bool)

  function Mark(s: Sent, b: nat, cur: int): Sent
    requires b < |s.clocks|
  {
    s.(clocks := s.clocks[b := cur], sentCount := s.sentCount + 1)
  }

  /** Blocks from `b` on, in order, as long as the budget is not used up. */
  function SendDue(s: Sent, b: nat, prev: int, cur: int, delay: int, bytes: nat, limit: nat): (r: Sending)
    requires s.Shaped() && b <= |s.slices|
    ensures r.s.Shaped() && r.s == s.(clocks := r.s.clocks, sentCount := r.s.sentCount)
    decreases |s.slices| - b
  {
    if b == |s.slices| then Sending(s, bytes, [], false)
    else if !Due(s, b, prev, cur, delay) then SendDue(s, b + 1, prev, cur, delay, bytes, limit)
    else if bytes >= limit then Sending(s, bytes, [], false)
    else
      var r := SendDue(Mark(s, b, cur), b + 1, prev, cur, delay, bytes + |s.slices[b]|, limit);
      r.(blocks := [b] + r.blocks, retried := r.retried || s.clocks[b] > 0)
  }

  function SizeOf(s: Sent, blocks: seq<nat>): nat {
    if blocks == [] then 0
    else (if blocks[0] < |s.slices| then |s.slices[blocks[0]]| else 0) + SizeOf(s, blocks[1..])
  }

  ghost predicate Ascending(blocks: seq<nat>, from: nat) {
    blocks != [] ==> from <= blocks[0] && Ascending(blocks[1..], blocks[0] + 1)
  }

  /** What one datagram may add to the bytes of a pass. */
  ghost predicate SlicesBelow(s: Sent, size: nat) {
    forall b :: 0 <= b < |s.slices| ==> |s.slices[b]| <= size
  }

  /**
   The blocks sent are due, each at most once, and stop only when the budget is used up; their clocks and
   the counters move, nothing else does.
   */
  lemma {:induction false} SendDueMeaning(s: Sent, b: nat, prev: int, cur: int, delay: int, bytes: nat, limit: nat)
    requires s.Shaped() && b <= |s.slices|
    ensures
      var r := SendDue(s, b, prev, cur, delay, bytes, limit);
      && Ascending(r.blocks, b)
      && (forall x :: x in r.blocks ==> b <= x < |s.slices| && Due(s, x, prev, cur, delay))
      && (forall x :: b <= x < |s.slices| && Due(s, x, prev, cur, delay) && x !in r.blocks ==> r.bytes >= limit)
      && (forall x :: 0 <= x < |s.slices| ==> r.s.clocks[x] == if x in r.blocks then cur else s.clocks[x])
      && r.s.sentCount == s.sentCount + |r.blocks| && r.bytes == bytes + SizeOf(s, r.blocks)
      && (r.retried <==> r.blocks != [] && prev > 0)
      && (r.blocks != [] ==> bytes < limit)
    decreases |s.slices| - b
  {
    hide Has;
    if b < |s.slices| {
      if !Due(s, b, prev, cur, delay) {
        SendDueMeaning(s, b + 1, prev, cur, delay, bytes, limit);
        AscendingFrom(SendDue(s, b + 1, prev, cur, delay, bytes, limit).blocks, b + 1, b);
      } else if bytes < limit {
        var s' := Mark(s, b, cur);
        SendDueMeaning(s', b + 1, prev, cur, delay, bytes + |s.slices[b]|, limit);
        var r := SendDue(s', b + 1, prev, cur, delay, bytes + |s.slices[b]|, limit);
        assert forall x :: b + 1 <= x < |s.slices| ==> Due(s', x, prev, cur, delay) == Due(s, x, prev, cur, delay);
        SizeOfSame(s, s', r.blocks);
        assert ([b] + r.blocks)[1..] == r.blocks;
      }
    }
  }

  lemma {:induction false} AscendingFrom(blocks: seq<nat>, from: nat, lower: nat)
    requires Ascending(blocks, from) && lower <= from
    ensures Ascending(blocks, lower)
  {
  }

  lemma {:induction false} SizeOfSame(s: Sent, s': Sent, blocks: seq<nat>)
    requires s.slices == s'.slices
    ensures SizeOf(s, blocks) == SizeOf(s', blocks)
  {
    if blocks != [] {
      SizeOfSame(s, s', blocks[1..]);
    }
  }

  /** The budget is overrun by less than one slice. */
  lemma {:induction false} SendDueBudget(s: Sent, b: nat, prev: int, cur: int, delay: int, bytes: nat, limit: nat,
      size: nat)
    requires s.Shaped() && b <= |s.slices| && SlicesBelow(s, size) && bytes < limit + size
    ensures SendDue(s, b, prev, cur, delay, bytes, limit).bytes < limit + size
    decreases |s.slices| - b
  {
    if b < |s.slices| {
      if !Due(s, b, prev, cur, delay) {
        SendDueBudget(s, b + 1, prev, cur, delay, bytes, limit, size);
      } else if bytes < limit {
        SendDueBudget(Mark(s, b, cur), b + 1, prev, cur, delay, bytes + |s.slices[b]|, limit, size);
      }
    }
  }

  // Visiting one datagram.

  datatype Visited = Visited(s: Sent, bytes: nat, blocks: seq<nat>, examined: bool)

  function Visit(s: Sent, cur: int, delay: int, bytes: nat, limit: nat): (v: Visited)
    requires s.Shaped()
    ensures v.s.Shaped() && v.s.serial == s.serial && v.s.slices == s.slices && v.s.key == s.key && v.s.flags == s.flags
  {
    if Abs(cur - s.lastChecked) <= delay then Visited(s, bytes, [], false)
    else
      var r := SendDue(s, 0, s.lastChecked, cur, delay, bytes, limit);
      var s' := r.s.(lastChecked := Refreshed(r.s, cur));
      var retry := s.lastChecked != s'.lastChecked && r.retried && Abs(s.lastRetryInc - cur) > delay;
      Visited(if retry then s'.(retryCount := s'.retryCount + 1, lastRetryInc := cur) else s', r.bytes, r.blocks, true)
  }

  /** The refresh after a visit's sends never uses its fallback for a datagram with a block missing. */
  lemma {:induction false} VisitNeedsNoFallback(s: Sent, cur: int, delay: int, bytes: nat, limit: nat, x: int)
    requires s.Shaped() && !Covers(s.flags, |s.slices|)
    ensures
      var r := SendDue(s, 0, s.lastChecked, cur, delay, bytes, limit).s;
      Refreshed(r, x) == Refreshed(r, cur)
  {
    hide Has, SendDue;
    SendDueMeaning(s, 0, s.lastChecked, cur, delay, bytes, limit);
    if x != cur {
      FallbackUsedIff(SendDue(s, 0, s.lastChecked, cur, delay, bytes, limit).s, x, cur);
    }
  }

  predicate GivenUp(v: Visited) {
    v.examined && v.s.retryCount > v.s.maxRetry
  }

  /** A visit keeps a datagram in order unless it gives it up. */
  lemma {:induction false} VisitLive(s: Sent, cur: int, delay: int, bytes: nat, limit: nat)
    requires Live(s) && SentBy(s, cur) && 0 <= cur
    ensures
      var v := Visit(s, cur, delay, bytes, limit);
      SentBy(v.s, cur) && v.s.retryCount <= Max(0, v.s.maxRetry) + 1 && (!GivenUp(v) ==> Live(v.s))
  {
    hide Has, SendDue;
    if Abs(cur - s.lastChecked) > delay {
      SendDueMeaning(s, 0, s.lastChecked, cur, delay, bytes, limit);
    }
  }

  /** An overdue datagram with budget left sends a block. */
  lemma {:induction false} VisitProgress(s: Sent, cur: int, delay: int, bytes: nat, limit: nat)
    requires Live(s) && Abs(cur - s.lastChecked) > delay && bytes < limit
    ensures Visit(s, cur, delay, bytes, limit).blocks != []
  {
    hide Has, SendDue;
    SendDueMeaning(s, 0, s.lastChecked, cur, delay, bytes, limit);
    var b :| 0 <= b < |s.clocks| && !Has(s.flags, b) && s.clocks[b] == s.lastChecked;
    assert Due(s, b, s.lastChecked, cur, delay);
  }

  /** A block the budget left behind keeps the datagram's clock, and the budget is used up. */
  lemma {:induction false} VisitLeftover(s: Sent, cur: int, delay: int, bytes: nat, limit: nat, x: nat)
    requires Live(s) && SentBy(s, cur) && Abs(cur - s.lastChecked) > delay && 0 <= delay
    requires x < |s.clocks| && Due(s, x, s.lastChecked, cur, delay)
    requires x !in Visit(s, cur, delay, bytes, limit).blocks
    ensures Visit(s, cur, delay, bytes, limit).s.lastChecked == s.lastChecked
    ensures Visit(s, cur, delay, bytes, limit).bytes >= limit
  {
    hide Has, SendDue;
    SendDueMeaning(s, 0, s.lastChecked, cur, delay, bytes, limit);
    var r := SendDue(s, 0, s.lastChecked, cur, delay, bytes, limit);
    assert r.s.clocks[x] == s.lastChecked && !Has(r.s.flags, x);
    assert forall b :: 0 <= b < |s.clocks| && !Has(s.flags, b) ==> s.lastChecked <= r.s.clocks[b];
  }

  /**
   A retry counts only when the delay has passed since the last one counted, and only when every missing
   block with the oldest clock was sent again.
   */
  lemma {:induction false} VisitRetryCounts(s: Sent, cur: int, delay: int, bytes: nat, limit: nat)
    requires Live(s) && SentBy(s, cur) && 0 <= delay
    ensures
      var v := Visit(s, cur, delay, bytes, limit);
      if v.s.retryCount == s.retryCount then v.s.lastRetryInc == s.lastRetryInc
      else && v.s.retryCount == s.retryCount + 1 && v.s.lastRetryInc == cur
           && Abs(s.lastRetryInc - cur) > delay && s.lastChecked > 0
           && forall b :: 0 <= b < |s.clocks| && Due(s, b, s.lastChecked, cur, delay) ==> b in v.blocks
  {
    hide Has, SendDue;
    var v := Visit(s, cur, delay, bytes, limit);
    if v.s.retryCount != s.retryCount {
      SendDueMeaning(s, 0, s.lastChecked, cur, delay, bytes, limit);
      forall b | 0 <= b < |s.clocks| && Due(s, b, s.lastChecked, cur, delay) ensures b in v.blocks {
        if b !in v.blocks {
          VisitLeftover(s, cur, delay, bytes, limit, b);
        }
      }
    }
  }

  // The whole list.

  /** A block handed to the socket. */
  datatype Tx = Tx(serial: nat, block: nat, payload: seq<byte>)

  /** The datagrams kept, the blocks sent in order, the bytes used and the oldest clock seen. */
  datatype Pass = Pass(list: seq<Sent>, out: seq<Tx>, bytes: nat, oldest: int)

  function TxOf(s: Sent, blocks: seq<nat>): (out: seq<Tx>)
    ensures |out| == |blocks|
    ensures forall i :: 0 <= i < |out| ==> out[i].serial == s.serial && out[i].block == blocks[i]
    ensures forall i :: 0 <= i < |out| && out[i].block < |s.slices| ==> out[i].payload == s.slices[out[i].block]
  {
    seq(|blocks|, i requires 0 <= i < |blocks| =>
      Tx(s.serial, blocks[i], if blocks[i] < |s.slices| then s.slices[blocks[i]] else []))
  }

  function RetryPass(list: seq<Sent>, cur: int, delay: int, bytes: nat, limit: nat, oldest: int): (p: Pass)
    requires AllShaped(list)
  {
    if list == [] then Pass([], [], bytes, oldest)
    else
      var v := Visit(list[0], cur, delay, bytes, limit);
      var oldest' := if v.examined then Min(oldest, v.s.lastChecked) else oldest;
      var rest := RetryPass(list[1..], cur, delay, v.bytes, limit, oldest');
      rest.(list := (if GivenUp(v) then [] else [v.s]) + rest.list, out := TxOf(v.s, v.blocks) + rest.out)
  }

  ghost predicate LiveAt(list: seq<Sent>, now: int) {
    forall i :: 0 <= i < |list| ==> Live(list[i]) && SentBy(list[i], now)
  }

  lemma {:induction false} PassLive(list: seq<Sent>, cur: int, delay: int, bytes: nat, limit: nat, oldest: int)
    requires LiveAt(list, cur) && 0 <= cur
    ensures LiveAt(RetryPass(list, cur, delay, bytes, limit, oldest).list, cur)
  {
    hide Live, SentBy, Visit;
    if list != [] {
      var v := Visit(list[0], cur, delay, bytes, limit);
      VisitLive(list[0], cur, delay, bytes, limit);
      PassLive(list[1..], cur, delay, v.bytes, limit, if v.examined then Min(oldest, v.s.lastChecked) else oldest);
    }
  }

  /** Bytes never fall and the oldest clock never rises along the list. */
  lemma {:induction false} PassMonotone(list: seq<Sent>, cur: int, delay: int, bytes: nat, limit: nat, oldest: int)
    requires AllShaped(list)
    ensures RetryPass(list, cur, delay, bytes, limit, oldest).bytes >= bytes
    ensures RetryPass(list, cur, delay, bytes, limit, oldest).oldest <= oldest
  {
    hide SendDue, Refreshed;
    if list != [] {
      var v := Visit(list[0], cur, delay, bytes, limit);
      SendDueMeaning(list[0], 0, list[0].lastChecked, cur, delay, bytes, limit);
      PassMonotone(list[1..], cur, delay, v.bytes, limit, if v.examined then Min(oldest, v.s.lastChecked) else oldest);
    }
  }

  /** The budget is overrun by less than one slice over the whole pass. */
  lemma {:induction false} PassBudget(list: seq<Sent>, cur: int, delay: int, bytes: nat, limit: nat, oldest: int,
      size: nat)
    requires AllShaped(list) && bytes < limit + size && forall i :: 0 <= i < |list| ==> SlicesBelow(list[i], size)
    ensures RetryPass(list, cur, delay, bytes, limit, oldest).bytes < limit + size
  {
    hide SendDue, Refreshed, SlicesBelow;
    if list != [] {
      var v := Visit(list[0], cur, delay, bytes, limit);
      SendDueBudget(list[0], 0, list[0].lastChecked, cur, delay, bytes, limit, size);
      var oldest' := if v.examined then Min(oldest, v.s.lastChecked) else oldest;
      PassBudget(list[1..], cur, delay, v.bytes, limit, oldest', size);
    }
  }

  /** If any datagram is overdue, at least one block goes out. */
  lemma {:induction false} PassProgress(list: seq<Sent>, cur: int, delay: int, limit: nat, oldest: int, i: nat)
    requires LiveAt(list, cur) && i < |list| && Abs(cur - list[i].lastChecked) > delay && 0 < limit
    ensures RetryPass(list, cur, delay, 0, limit, oldest).out != []
  {
    hide Live, SentBy, SendDue;
    if Abs(cur - list[0].lastChecked) > delay {
      assert Live(list[0]);
      VisitProgress(list[0], cur, delay, 0, limit);
    } else {
      PassProgress(list[1..], cur, delay, limit, oldest, i - 1);
    }
  }

  function TotalSize(out: seq<Tx>): nat {
    if out == [] then 0 else |out[0].payload| + TotalSize(out[1..])
  }

  /** What goes out: a missing block of a datagram in the list, with that block's bytes. */
  ghost predicate Sendable(list: seq<Sent>, tx: Tx) {
    exists i :: 0 <= i < |list| && SendableOf(list[i], tx)
  }

  ghost predicate SendableOf(s: Sent, tx: Tx) {
    && tx.serial == s.serial && s.Shaped() && tx.block < |s.slices|
    && !Has(s.flags, tx.block) && tx.payload == s.slices[tx.block]
  }

  lemma {:induction false} PassSends(list: seq<Sent>, cur: int, delay: int, bytes: nat, limit: nat, oldest: int)
    requires AllShaped(list)
    ensures
      var p := RetryPass(list, cur, delay, bytes, limit, oldest);
      && (forall tx :: tx in p.out ==> Sendable(list, tx))
      && p.bytes == bytes + TotalSize(p.out)
  {
    hide SendDue, Refreshed, SendableOf;
    if list != [] {
      var s, tail := list[0], list[1..];
      var v := Visit(s, cur, delay, bytes, limit);
      VisitSends(s, cur, delay, bytes, limit);
      var oldest' := if v.examined then Min(oldest, v.s.lastChecked) else oldest;
      PassSends(tail, cur, delay, v.bytes, limit, oldest');
      var rest := RetryPass(tail, cur, delay, v.bytes, limit, oldest');
      TotalSizeSum(TxOf(v.s, v.blocks), rest.out);
      forall tx | tx in rest.out ensures Sendable(list, tx) {
        var i :| 0 <= i < |tail| && SendableOf(tail[i], tx);
        assert SendableOf(list[i + 1], tx);
      }
      forall tx | tx in TxOf(v.s, v.blocks) ensures Sendable(list, tx) {
        assert SendableOf(list[0], tx);
      }
    }
  }

  lemma {:induction false} VisitSends(s: Sent, cur: int, delay: int, bytes: nat, limit: nat)
    requires s.Shaped()
    ensures
      var v := Visit(s, cur, delay, bytes, limit);
      && (forall tx :: tx in TxOf(v.s, v.blocks) ==> SendableOf(s, tx))
      && v.bytes == bytes + TotalSize(TxOf(v.s, v.blocks)) && Ascending(v.blocks, 0)
  {
    hide SendDue, Refreshed, Has;
    var v := Visit(s, cur, delay, bytes, limit);
    SendDueMeaning(s, 0, s.lastChecked, cur, delay, bytes, limit);
    SizeOfTx(s, v.s, v.blocks);
    var out := TxOf(v.s, v.blocks);
    forall tx | tx in out ensures SendableOf(s, tx) {
      var i :| 0 <= i < |out| && out[i] == tx;
      assert v.blocks[i] in v.blocks;
    }
  }

  lemma {:induction false} SizeOfTx(s: Sent, s': Sent, blocks: seq<nat>)
    requires s.slices == s'.slices
    ensures TotalSize(TxOf(s', blocks)) == SizeOf(s, blocks)
  {
    if blocks != [] {
      SizeOfTx(s, s', blocks[1..]);
      assert TxOf(s', blocks)[1..] == TxOf(s', blocks[1..]);
    }
  }

  lemma {:induction false} TotalSizeSum(a: seq<Tx>, b: seq<Tx>)
    ensures TotalSize(a + b) == TotalSize(a) + TotalSize(b)
  {
    if a == [] {
      assert a + b == b;
    } else {
      TotalSizeSum(a[1..], b);
      assert (a + b)[1..] == a[1..] + b;
    }
  }

  // No block twice.

  ghost predicate DistinctSerials(list: seq<Sent>) {
    forall i, j :: 0 <= i < j < |list| ==> list[i].serial != list[j].serial
  }

  ghost predicate NoRepeats(out: seq<Tx>) {
    forall i, j :: 0 <= i < j < |out| ==> out[i] != out[j]
  }

  lemma {:induction false} AscendingDistinct(blocks: seq<nat>, from: nat)
    requires Ascending(blocks, from)
    ensures forall i :: 0 <= i < |blocks| ==> from <= blocks[i]
    ensures forall i, j :: 0 <= i < j < |blocks| ==> blocks[i] < blocks[j]
  {
    if blocks != [] {
      AscendingDistinct(blocks[1..], blocks[0] + 1);
      assert forall i :: 0 < i < |blocks| ==> blocks[i] == blocks[1..][i - 1];
    }
  }

  lemma {:induction false} PassNoRepeats(list: seq<Sent>, cur: int, delay: int, bytes: nat, limit: nat, oldest: int)
    requires AllShaped(list) && DistinctSerials(list)
    ensures NoRepeats(RetryPass(list, cur, delay, bytes, limit, oldest).out)
  {
    hide Visit, SendableOf, TxOf;
    if list != [] {
      var s, tail := list[0], list[1..];
      var v := Visit(s, cur, delay, bytes, limit);
      VisitSends(s, cur, delay, bytes, limit);
      AscendingDistinct(v.blocks, 0);
      var oldest' := if v.examined then Min(oldest, v.s.lastChecked) else oldest;
      var rest := RetryPass(tail, cur, delay, v.bytes, limit, oldest');
      PassNoRepeats(tail, cur, delay, v.bytes, limit, oldest');
      PassSends(tail, cur, delay, v.bytes, limit, oldest');
      forall tx | tx in rest.out ensures tx.serial != s.serial {
        SendableSerial(tail, tx);
        var i :| 0 <= i < |tail| && tail[i].serial == tx.serial;
        assert list[i + 1] == tail[i];
      }
      forall i, j | 0 <= i < j < |v.blocks| ensures TxOf(v.s, v.blocks)[i] != TxOf(v.s, v.blocks)[j] {
        assert v.blocks[i] < v.blocks[j];
      }
      JoinNoRepeats(TxOf(v.s, v.blocks), rest.out, s.serial);
    }
  }

  lemma {:induction false} SendableSerial(list: seq<Sent>, tx: Tx)
    requires Sendable(list, tx)
    ensures exists i :: 0 <= i < |list| && list[i].serial == tx.serial
  {
    var i :| 0 <= i < |list| && SendableOf(list[i], tx);
  }

  lemma {:induction false} JoinNoRepeats(a: seq<Tx>, b: seq<Tx>, serial: nat)
    requires NoRepeats(a) && NoRepeats(b)
    requires (forall tx :: tx in a ==> tx.serial == serial) && (forall tx :: tx in b ==> tx.serial != serial)
    ensures NoRepeats(a + b)
  {
    forall i, j | 0 <= i < j < |a + b| ensures (a + b)[i] != (a + b)[j] {
      if i < |a| && j >= |a| {
        assert a[i] in a && b[j - |a|] in b;
      } else if i >= |a| {
        assert b[i - |a|] != b[j - |a|];
      }
    }
  }

  // Leftovers.

  /** An examined datagram whose due block `x` did not go out. */
  ghost predicate LeftBehind(s: Sent, x: nat, p: Pass, cur: int, delay: int) {
    && s.Shaped() && x < |s.slices| && Abs(cur - s.lastChecked) > delay && Due(s, x, s.lastChecked, cur, delay)
    && forall tx :: tx in p.out ==> !(tx.serial == s.serial && tx.block == x)
  }

  lemma {:induction false} PassLeftover(list: seq<Sent>, cur: int, delay: int, bytes: nat, limit: nat, oldest: int,
      i: nat, x: nat)
    requires LiveAt(list, cur) && 0 <= delay && i < |list|
    requires LeftBehind(list[i], x, RetryPass(list, cur, delay, bytes, limit, oldest), cur, delay)
    ensures RetryPass(list, cur, delay, bytes, limit, oldest).oldest <= list[i].lastChecked
    ensures RetryPass(list, cur, delay, bytes, limit, oldest).bytes >= limit
  {
    hide Live, SendDue, Refreshed, Due;
    var s, tail := list[0], list[1..];
    var v := Visit(s, cur, delay, bytes, limit);
    var oldest' := if v.examined then Min(oldest, v.s.lastChecked) else oldest;
    var rest := RetryPass(tail, cur, delay, v.bytes, limit, oldest');
    var p := RetryPass(list, cur, delay, bytes, limit, oldest);
    if i == 0 {
      forall k | 0 <= k < |v.blocks| ensures v.blocks[k] != x {
        assert TxOf(v.s, v.blocks)[k] in p.out;
      }
      assert Live(s);
      VisitLeftover(s, cur, delay, bytes, limit, x);
      PassMonotone(tail, cur, delay, v.bytes, limit, oldest');
    } else {
      assert forall tx :: tx in rest.out ==> tx in p.out;
      PassLeftover(tail, cur, delay, v.bytes, limit, oldest', i - 1, x);
    }
  }

  // Delays and the budget, over exact numbers.

  const UNKNOWN_RTT_SLICED_FLOOR_MS: int := 200
  const MIN_RATE: int := 256 * 1024
  const MAX_RATE: int := 8 * 1024 * 1024

  /** Rounding half away from zero, for numbers that are not negative. */
  function Round(x: real): (n: int)
    ensures x - 0.5 <= n as real && n as real <= x + 0.5
  {
    (x + 0.5).Floor
  }

  function RetryRtt(rtt: int): (r: int)
    ensures r > 0
  {
    if rtt <= 0 then UNKNOWN_RTT_SLICED_FLOOR_MS else rtt
  }

  function PathDelay(rtt: int, k: real): int {
    Round(rtt as real * k + 10.0)
  }

  function CycleTime(sleep: real): real {
    var t := if sleep > 5.0 then sleep else 5.0;
    if t < 15.0 then t else 15.0
  }

  function ClientLimit(rate: int, sleep: real): int {
    Round(rate as real * CycleTime(sleep) * 0.001)
  }

  /** The path delay exceeds the round trip, so a datagram that is overdue also opens the gate. */
  lemma {:induction false} PathDelayExceedsRtt(rtt: int, k: real)
    requires 0 < rtt && 1.05 <= k
    ensures PathDelay(rtt, k) > rtt + 9
  {
    assert rtt as real * k >= rtt as real * 1.05;
  }

  lemma {:induction false} ClientLimitBound(rate: int, sleep: real)
    requires MIN_RATE <= rate
    ensures ClientLimit(rate, sleep) >= 1311
  {
    var t := CycleTime(sleep);
    assert rate as real * t >= rate as real * 5.0;
    assert rate as real * 5.0 >= 262144.0 * 5.0;
    assert rate as real * t * 0.001 >= 262144.0 * 5.0 * 0.001;
  }
}
