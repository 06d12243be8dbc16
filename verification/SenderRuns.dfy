/** The sliced sender as a state machine: what every run keeps, and what a retry tick sends. */
module SenderRuns {
  import opened Bytes
  import opened Numbers
  import opened SentDatagrams
  import opened KeyedLists
  import opened AckConfluence
  import opened SlicedRetry
  import opened SlicedSender

  datatype Sender = Sender(
    sending: seq<Sent>, nextSerial: nat, lastCheckedSlices: int, rtt: int,
    tripDelayK: real, lastSetTripK: int, canSendRate: int, usedSlicedLimit: bool)

  /** A command taken from the queue: its slices, or nothing when it fails the size gate. */
  datatype Item = Item(slices: Option<seq<seq<byte>>>, maxRetry: int, key: UniqueKey)

  /** All invariants of the sender between two steps, at time `now`. */
  ghost predicate Inv(st: Sender, now: int) {
    && LiveAt(st.sending, now) && Ordered(st.sending) && KeysUnique(st.sending, KeyOf)
    && (forall i :: 0 <= i < |st.sending| ==> st.sending[i].serial < st.nextSerial)
    && 1.05 <= st.tripDelayK <= 1.25 && MIN_RATE <= st.canSendRate <= MAX_RATE
  }

  // New commands.

  function CleanKeys(list: seq<Sent>, items: seq<Item>): seq<Sent>
    decreases |items|
  {
    if items == [] then list
    else CleanKeys(if items[0].key.IsNone() then list else RemoveKey(list, KeyOf, items[0].key), items[1..])
  }

  function Create(st: Sender, item: Item): Sender {
    if item.slices.None? then st
    else st.(
      sending := Insert(st.sending, NewSent(st.nextSerial, item.slices.value, item.maxRetry, item.key)),
      nextSerial := st.nextSerial + 1, lastCheckedSlices := 0)
  }

  function CreateAll(st: Sender, items: seq<Item>): Sender
    decreases |items|
  {
    if items == [] then st else CreateAll(Create(st, items[0]), items[1..])
  }

  /** A batch from the queue: at most one command per key, each in 1 to 256 slices. */
  ghost predicate BatchOk(items: seq<Item>) {
    && (forall i, j :: 0 <= i < j < |items| && items[i].key == items[j].key ==> items[i].key.IsNone())
    && forall i :: 0 <= i < |items| && items[i].slices.Some? ==> 1 <= |items[i].slices.value| <= 256
  }

  /** None of the keys of these commands is in the list. */
  ghost predicate KeysFree(list: seq<Sent>, items: seq<Item>) {
    forall i :: 0 <= i < |items| ==> items[i].key.IsNone() || !HasKey(list, KeyOf, items[i].key)
  }

  lemma {:induction false} ThinnedInv(st: Sender, list: seq<Sent>, now: int, now': int)
    requires Inv(st, now) && Thinned(list, st.sending, Same) && LiveAt(list, now')
    ensures Inv(st.(sending := list), now')
  {
    hide Live, SentBy, Before;
    SendingThinned(list, st.sending);
    ThinnedMembers(list, st.sending, Same);
    forall i | 0 <= i < |list| ensures list[i].serial < st.nextSerial {
      var j :| 0 <= j < |st.sending| && Same(list[i], st.sending[j]);
    }
  }

  lemma {:induction false} RemoveKeyLive(list: seq<Sent>, key: UniqueKey, now: int)
    requires LiveAt(list, now)
    ensures LiveAt(RemoveKey(list, KeyOf, key), now)
  {
    hide Live, SentBy;
    if list != [] && list[0].key != key {
      RemoveKeyLive(list[1..], key, now);
    }
  }

  lemma {:induction false} CleanKeysKeeps(st: Sender, items: seq<Item>, now: int)
    requires Inv(st, now)
    ensures Inv(st.(sending := CleanKeys(st.sending, items)), now)
    ensures KeysFree(CleanKeys(st.sending, items), items)
    ensures forall key :: HasKey(CleanKeys(st.sending, items), KeyOf, key) ==> HasKey(st.sending, KeyOf, key)
    decreases |items|
  {
    hide LiveAt, Ordered, HasKey, RemoveKey, Thinned;
    if items != [] {
      var key := items[0].key;
      var list := if key.IsNone() then st.sending else RemoveKey(st.sending, KeyOf, key);
      if !key.IsNone() {
        RemoveKeyThins(st.sending, KeyOf, key, Same);
        RemoveKeyLive(st.sending, key, now);
        ThinnedInv(st, list, now, now);
        forall other ensures HasKey(list, KeyOf, other) <==> HasKey(st.sending, KeyOf, other) && other != key {
          RemoveKeyClears(st.sending, KeyOf, key, other);
        }
      }
      CleanKeysKeeps(st.(sending := list), items[1..], now);
      forall i | 0 <= i < |items|
        ensures items[i].key.IsNone() || !HasKey(CleanKeys(st.sending, items), KeyOf, items[i].key)
      {
        if i > 0 {
          assert items[i] == items[1..][i - 1];
        }
      }
    }
  }

  lemma {:induction false} CreateKeeps(st: Sender, item: Item, now: int)
    requires Inv(st, now) && 0 <= now && (item.key.IsNone() || !HasKey(st.sending, KeyOf, item.key))
    requires item.slices.Some? ==> 1 <= |item.slices.value| <= 256
    ensures Inv(Create(st, item), now)
    ensures forall key :: HasKey(Create(st, item).sending, KeyOf, key) ==>
      HasKey(st.sending, KeyOf, key) || key == item.key
  {
    hide Live, Before, SentBy;
    if item.slices.Some? {
      var s := NewSent(st.nextSerial, item.slices.value, item.maxRetry, item.key);
      NewSentLive(st.nextSerial, item.slices.value, item.maxRetry, item.key);
      SentByLater(s, 0, now);
      InsertKeeps(st.sending, s);
      InsertedAre(st.sending, s);
    }
  }

  lemma {:induction false} SentByLater(s: Sent, now: int, later: int)
    requires SentBy(s, now) && now <= later
    ensures SentBy(s, later)
  {
  }

  lemma {:induction false} InsertedAre(list: seq<Sent>, s: Sent)
    ensures forall i :: 0 <= i < |Insert(list, s)| ==> Insert(list, s)[i] == s || Insert(list, s)[i] in list
  {
  }

  lemma {:induction false} CreateAllKeeps(st: Sender, items: seq<Item>, now: int)
    requires Inv(st, now) && 0 <= now && BatchOk(items) && KeysFree(st.sending, items)
    ensures Inv(CreateAll(st, items), now)
    decreases |items|
  {
    hide Inv, Create, HasKey;
    if items != [] {
      CreateKeeps(st, items[0], now);
      assert forall i :: 0 < i < |items| ==> items[i] == items[1..][i - 1];
      CreateAllKeeps(Create(st, items[0]), items[1..], now);
    }
  }

  // Rate control and the retry tick.

  function Drifted(rate: int, rs: real): int {
    Round(rate as real * (1.0 + (rs - 0.92) / 0.92 * 0.05))
  }

  /** The rate after a report of how much of the sent traffic arrived. */
  function RateAfter(rate: int, rs: real): int {
    Clamp(
      if rs > 0.92 then rate + Max(Round(rate as real * 0.03), 32 * 1024)
      else if rs < 0.85 then Round(rate as real * 0.85)
      else Drifted(rate, rs),
      MIN_RATE, MAX_RATE)
  }

  function Ping(st: Sender, rtt: int, rs: real): Sender {
    if st.usedSlicedLimit then st.(rtt := rtt, canSendRate := RateAfter(st.canSendRate, rs), usedSlicedLimit := false)
    else st.(rtt := rtt)
  }

  /** Good reports never lower the rate and poor ones never raise it. */
  lemma {:induction false} RateDirection(rate: int, rs: real)
    requires MIN_RATE <= rate <= MAX_RATE
    ensures rs > 0.92 ==> RateAfter(rate, rs) >= rate
    ensures rs <= 0.92 ==> RateAfter(rate, rs) <= rate
  {
    hide Drifted;
    if 0.85 <= rs <= 0.92 {
      DriftedBelow(rate, rs);
    }
  }

  lemma {:induction false} DriftedBelow(rate: int, rs: real)
    requires 0 <= rate && rs <= 0.92
    ensures Drifted(rate, rs) <= rate
  {
    hide Round;
    var factor := 1.0 + (rs - 0.92) / 0.92 * 0.05;
    DriftFactor(rs);
    ScaledDown(rate as real, factor);
    RoundBelow(rate as real * factor, rate);
  }

  lemma {:induction false} RoundBelow(x: real, n: int)
    requires x <= n as real
    ensures Round(x) <= n
  {
  }

  lemma {:induction false} DriftFactor(rs: real)
    requires rs <= 0.92
    ensures 1.0 + (rs - 0.92) / 0.92 * 0.05 <= 1.0
  {
  }

  lemma {:induction false} ScaledDown(x: real, factor: real)
    requires 0.0 <= x && factor <= 1.0
    ensures x * factor <= x
  {
  }

  function AdaptedK(k: real, avgDup: real): real {
    var k1 := if avgDup > 5.0 then (if k + 0.05 < 1.25 then k + 0.05 else 1.25) else k;
    if avgDup == 0.0 then (if k1 - 0.01 > 1.05 then k1 - 0.01 else 1.05) else k1
  }

  /** A tick passes when enough time has gone by since the oldest clock the last pass saw. */
  predicate GateOpen(st: Sender, cur: int) {
    Abs(cur - st.lastCheckedSlices) > RetryRtt(st.rtt)
  }

  function KAt(st: Sender, cur: int, avgDup: real): real {
    if Abs(cur - st.lastSetTripK) > 2000 then AdaptedK(st.tripDelayK, avgDup) else st.tripDelayK
  }

  function DelayAt(st: Sender, cur: int, avgDup: real): int {
    PathDelay(RetryRtt(st.rtt), KAt(st, cur, avgDup))
  }

  function LimitAt(st: Sender, sleep: real): nat {
    var limit := ClientLimit(st.canSendRate, sleep);
    if limit < 0 then 0 else limit
  }

  function PassAt(st: Sender, cur: int, avgDup: real, sleep: real): Pass
    requires AllShaped(st.sending)
  {
    RetryPass(st.sending, cur, DelayAt(st, cur, avgDup), 0, LimitAt(st, sleep), cur)
  }

  function Tick(st: Sender, cur: int, avgDup: real, sleep: real): (r: (Sender, seq<Tx>))
    requires AllShaped(st.sending)
  {
    if st.sending == [] || !GateOpen(st, cur) then (st, [])
    else
      var p := PassAt(st, cur, avgDup, sleep);
      (st.(
        sending := p.list, lastCheckedSlices := p.oldest,
        tripDelayK := KAt(st, cur, avgDup),
        lastSetTripK := if Abs(cur - st.lastSetTripK) > 2000 then cur else st.lastSetTripK,
        usedSlicedLimit := st.usedSlicedLimit || p.bytes >= Round(LimitAt(st, sleep) as real * 0.8)),
       p.out)
  }

  lemma {:induction false} LiveLater(list: seq<Sent>, now: int, later: int)
    requires LiveAt(list, now) && now <= later
    ensures LiveAt(list, later) && AllShaped(list)
  {
    hide Live;
  }

  lemma {:induction false} TickKeeps(st: Sender, cur: int, avgDup: real, sleep: real)
    requires Inv(st, cur) && 0 <= cur
    ensures AllShaped(st.sending) && Inv(Tick(st, cur, avgDup, sleep).0, cur)
  {
    hide LiveAt, RetryPass, Ordered, KeysUnique, Thinned, PathDelay;
    LiveLater(st.sending, cur, cur);
    PassLive(st.sending, cur, DelayAt(st, cur, avgDup), 0, LimitAt(st, sleep), cur);
    PassThins(st.sending, cur, DelayAt(st, cur, avgDup), 0, LimitAt(st, sleep), cur);
    ThinnedInv(st, PassAt(st, cur, avgDup, sleep).list, cur, cur);
  }

  // Runs.

  datatype Event =
    | Batch(items: seq<Item>)
    | Acks(acks: seq<Ack>)
    | Retry(cur: int, avgDup: real, sleep: real)
    | Report(rtt: int, rs: real)
    | Clear

  function TimeAfter(now: int, e: Event): int {
    if e.Retry? then e.cur else now
  }

  ghost predicate Legal(e: Event, now: int) {
    match e
    case Batch(items) => BatchOk(items)
    case Retry(cur, _, _) => now <= cur
    case _ => true
  }

  lemma {:induction false} AcksKeep(st: Sender, acks: seq<Ack>, now: int)
    requires Inv(st, now)
    ensures AllLive(st.sending) && Inv(st.(sending := ApplyAcks(st.sending, acks, now)), now)
    decreases |acks|
  {
    hide Live, Ordered, KeysUnique, Thinned, ApplyAck;
    if acks != [] {
      var list := ApplyAck(st.sending, acks[0], now);
      AckLive(st.sending, acks[0], now);
      AckThins(st.sending, acks[0], now);
      ThinnedInv(st, list, now, now);
      AcksKeep(st.(sending := list), acks[1..], now);
    }
  }

  lemma {:induction false} AckLive(list: seq<Sent>, ack: Ack, now: int)
    requires LiveAt(list, now)
    ensures AllLive(list) && LiveAt(ApplyAck(list, ack, now), now)
  {
    hide Live, Acked;
    ApplyAckLive(list, ack, now);
  }

  function Step(st: Sender, e: Event, now: int): Sender
    requires AllShaped(st.sending)
  {
    match e
    case Batch(items) => CreateAll(st.(sending := CleanKeys(st.sending, items)), items)
    case Acks(acks) => st.(sending := ApplyAcks(st.sending, acks, now))
    case Retry(cur, avgDup, sleep) => Tick(st, cur, avgDup, sleep).0
    case Report(rtt, rs) => Ping(st, rtt, rs)
    case Clear => st.(sending := [], lastCheckedSlices := 0)
  }

  lemma {:induction false} StepKeeps(st: Sender, e: Event, now: int)
    requires Inv(st, now) && 0 <= now && Legal(e, now)
    ensures AllShaped(st.sending) && Inv(Step(st, e, now), TimeAfter(now, e))
  {
    hide LiveAt, Ordered, KeysUnique, CleanKeys, CreateAll, Tick, KeysFree, BatchOk, HasKey, RateAfter;
    LiveLater(st.sending, now, now);
    match e
    case Batch(items) =>
      CleanKeysKeeps(st, items, now);
      CreateAllKeeps(st.(sending := CleanKeys(st.sending, items)), items, now);
    case Acks(acks) => AcksKeep(st, acks, now);
    case Retry(cur, avgDup, sleep) =>
      LiveLater(st.sending, now, cur);
      TickKeeps(st, cur, avgDup, sleep);
    case Report(rtt, rs) => RateInRange(st.canSendRate, rs);
    case Clear => NothingSent(now);
  }

  lemma {:induction false} RateInRange(rate: int, rs: real)
    ensures MIN_RATE <= RateAfter(rate, rs) <= MAX_RATE
  {
  }

  lemma {:induction false} NothingSent(now: int)
    ensures LiveAt([], now) && Ordered([]) && KeysUnique([], KeyOf)
  {
  }

  /** A new client: nothing sent, 2 MiB/s, factor 1.1. */
  function Start(): Sender {
    Sender([], 0, 0, 0, 1.1, 0, 2 * 1024 * 1024, false)
  }

  ghost predicate Reaches(events: seq<Event>, st: Sender, now: int)
    decreases |events|
  {
    if events == [] then st == Start() && now == 0
    else
      var e := events[|events| - 1];
      exists st0, now0 :: Reaches(events[..|events| - 1], st0, now0) && AllShaped(st0.sending) && Legal(e, now0)
        && st == Step(st0, e, now0) && now == TimeAfter(now0, e)
  }

  /** Every reachable sender satisfies the invariant. */
  lemma {:induction false} ReachableInv(events: seq<Event>, st: Sender, now: int)
    requires Reaches(events, st, now)
    ensures Inv(st, now) && 0 <= now
    decreases |events|
  {
    hide Inv, Step, Legal;
    if events == [] {
      StartInv();
    } else {
      var e := events[|events| - 1];
      var st0, now0 :| Reaches(events[..|events| - 1], st0, now0) && AllShaped(st0.sending) && Legal(e, now0)
        && st == Step(st0, e, now0) && now == TimeAfter(now0, e);
      ReachableInv(events[..|events| - 1], st0, now0);
      StepKeeps(st0, e, now0);
      LegalTime(e, now0);
    }
  }

  lemma {:induction false} StartInv()
    ensures Inv(Start(), 0)
  {
  }

  lemma {:induction false} LegalTime(e: Event, now: int)
    requires Legal(e, now)
    ensures now <= TimeAfter(now, e)
  {
  }

  // What a tick sends.

  /** Only missing blocks, none twice, and less than one slice beyond the budget. */
  lemma {:induction false} TickSends(st: Sender, cur: int, avgDup: real, sleep: real, size: nat)
    requires Inv(st, cur) && 0 < size && forall i :: 0 <= i < |st.sending| ==> SlicesBelow(st.sending[i], size)
    ensures AllShaped(st.sending)
    ensures
      var out := Tick(st, cur, avgDup, sleep).1;
      && (forall tx :: tx in out ==> Sendable(st.sending, tx)) && NoRepeats(out)
      && TotalSize(out) < LimitAt(st, sleep) + size
  {
    hide LiveAt, RetryPass, SlicesBelow, LimitAt, DelayAt, Sendable;
    LiveLater(st.sending, cur, cur);
    var delay, limit := DelayAt(st, cur, avgDup), LimitAt(st, sleep);
    PassSends(st.sending, cur, delay, 0, limit, cur);
    OrderedDistinct(st.sending);
    PassNoRepeats(st.sending, cur, delay, 0, limit, cur);
    PassBudget(st.sending, cur, delay, 0, limit, cur, size);
  }

  lemma {:induction false} OrderedDistinct(list: seq<Sent>)
    requires Ordered(list)
    ensures DistinctSerials(list)
  {
    forall i, j | 0 <= i < j < |list| ensures list[i].serial != list[j].serial {
      assert Before(list[i], list[j]);
    }
  }

  /** When the gate is open and a datagram is overdue, the tick makes progress. */
  lemma {:induction false} TickProgress(st: Sender, cur: int, avgDup: real, sleep: real, i: nat)
    requires Inv(st, cur) && i < |st.sending| && GateOpen(st, cur)
    requires Abs(cur - st.sending[i].lastChecked) > DelayAt(st, cur, avgDup)
    ensures AllShaped(st.sending) && Tick(st, cur, avgDup, sleep).1 != []
  {
    hide LiveAt, RetryPass, DelayAt, ClientLimit;
    LiveLater(st.sending, cur, cur);
    ClientLimitBound(st.canSendRate, sleep);
    PassProgress(st.sending, cur, DelayAt(st, cur, avgDup), LimitAt(st, sleep), cur, i);
  }

  /** A block the budget left behind finds the gate open at every later tick with the same round trip. */
  lemma {:induction false} TickLeftover(st: Sender, cur: int, avgDup: real, sleep: real, i: nat, x: nat, cur': int)
    requires Inv(st, cur) && i < |st.sending| && GateOpen(st, cur) && cur <= cur'
    requires AllShaped(st.sending)
    requires LeftBehind(st.sending[i], x, PassAt(st, cur, avgDup, sleep), cur, DelayAt(st, cur, avgDup))
    ensures GateOpen(Tick(st, cur, avgDup, sleep).0, cur')
    ensures TotalSize(Tick(st, cur, avgDup, sleep).1) >= LimitAt(st, sleep)
  {
    hide RetryPass, PathDelay, LimitAt, Live;
    var delay, limit := DelayAt(st, cur, avgDup), LimitAt(st, sleep);
    PathDelayExceedsRtt(RetryRtt(st.rtt), KAt(st, cur, avgDup));
    PassLeftover(st.sending, cur, delay, 0, limit, cur, i, x);
    PassSends(st.sending, cur, delay, 0, limit, cur);
  }
}
