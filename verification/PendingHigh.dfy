/**
 High-priority encrypted commands: first transmission, retries until confirmed or exhausted
 (src/client/protocol_direct_send.rs, src/client/send_queue.rs). The log of transmissions is part of the
 state, so that what every run keeps can be said about it.
 */
module PendingHigh {
  import opened Bytes
  import opened Numbers
  import opened SentDatagrams
  import opened KeyedLists
  import opened Pipeline
  import C = SynLzCompressor

  const INITIAL_CRYPTED_MSG_COUNTER: nat := 64 * 64 / 2 - 1
  const MIN_DELAY: int := 200
  const MAX_DELAY: int := 500

  /** An encrypted command from the queue. */
  datatype Command = Command(cmd: byte, data: seq<byte>, maxRetries: int, key: UniqueKey)

  /** A command awaiting confirmation, as it went on the wire. */
  datatype Pending = Pending(
    id: nat, cmd: byte, data: seq<byte>, retryLeft: int, maxRetries: int, msgNum: nat, lastSentAt: int, key: UniqueKey)

  /** One transmission: what was encrypted, under which keys, and when. */
  datatype Tx = Tx(
    id: nat, epoch: nat, msgNum: nat, cmd: byte, data: seq<byte>, wantAck: bool, maxRetries: int, at: int)

  /**
   `epoch` counts the key derivations so far; at 0 there is no cipher yet. `nextId` counts the commands
   sent: unlike `counter`, from which message numbers are taken, nothing ever sets it back.
   */
  datatype State = State(pending: seq<Pending>, counter: nat, log: seq<Tx>, nextId: nat, epoch: nat)

  function Start(): State {
    State([], INITIAL_CRYPTED_MSG_COUNTER, [], 0, 0)
  }

  function InitialRetryLeft(maxRetries: int): int {
    Max(maxRetries - 1, 0)
  }

  /** The most transmissions a command may have. */
  function Budget(maxRetries: int): int {
    Max(1, maxRetries)
  }

  /** A first transmission takes the next message number, also when there is no cipher yet. */
  function SendNew(st: State, x: Command, cur: int): State {
    var (cmd, data) := MaybeCompress(x.cmd, x.data);
    var left := InitialRetryLeft(x.maxRetries);
    var n := st.counter + 1;
    if st.epoch == 0 then st.(counter := n)
    else
      var p := Pending(st.nextId, cmd, data, left, x.maxRetries, n, cur, x.key);
      st.(
        pending := st.pending + (if left > 0 then [p] else []),
        counter := n,
        log := st.log + [Tx(st.nextId, st.epoch, n, cmd, data, left > 0, x.maxRetries, cur)],
        nextId := st.nextId + 1)
  }

  function SendAll(st: State, xs: seq<Command>, cur: int): State
    decreases |xs|
  {
    if xs == [] then st else SendAll(SendNew(st, xs[0], cur), xs[1..], cur)
  }

  function PathDelay(rtt: real): (d: int)
    ensures MIN_DELAY <= d <= MAX_DELAY
  {
    var d := (rtt * 1.1 + 10.0 + 0.5).Floor;
    if d < MIN_DELAY then MIN_DELAY else if d > MAX_DELAY then MAX_DELAY else d
  }

  predicate RetryDue(p: Pending, cur: int, delay: int) {
    Abs(p.lastSentAt - cur) > delay
  }

  /** A retransmission compresses again, which changes nothing, and keeps the message number. */
  function Resent(p: Pending, cur: int, epoch: nat): Tx {
    var (cmd, data) := MaybeCompress(p.cmd, p.data);
    Tx(p.id, epoch, p.msgNum, cmd, data, p.retryLeft > 0, p.maxRetries, cur)
  }

  /** A command after the retry pass has looked at it. */
  function Looked(p: Pending, cur: int, delay: int): Pending {
    if RetryDue(p, cur, delay) then p.(lastSentAt := cur, retryLeft := p.retryLeft - 1) else p
  }

  predicate Exhausted(p: Pending, cur: int, delay: int) {
    RetryDue(p, cur, delay) && p.retryLeft - 1 <= 0
  }

  function LogAfter(log: seq<Tx>, p: Pending, cur: int, delay: int, epoch: nat): seq<Tx> {
    if RetryDue(p, cur, delay) && epoch > 0 then log + [Resent(p, cur, epoch)] else log
  }

  /** Due commands are sent with their present budget, which then falls by one; exhausted ones are dropped. */
  function RetryAll(pending: seq<Pending>, log: seq<Tx>, cur: int, delay: int, epoch: nat)
    : (r: (seq<Pending>, seq<Tx>))
    decreases |pending|
  {
    if pending == [] then ([], log)
    else
      var p := pending[0];
      var (kept, log') := RetryAll(pending[1..], LogAfter(log, p, cur, delay, epoch), cur, delay, epoch);
      ((if Exhausted(p, cur, delay) then [] else [Looked(p, cur, delay)]) + kept, log')
  }

  function KeyOf(p: Pending): UniqueKey {
    p.key
  }

  function CleanKeys(pending: seq<Pending>, xs: seq<Command>): seq<Pending>
    decreases |xs|
  {
    if xs == [] then pending
    else CleanKeys(if xs[0].key.IsNone() then pending else RemoveKey(pending, KeyOf, xs[0].key), xs[1..])
  }

  function Confirm(pending: seq<Pending>, confirmed: set<nat>): seq<Pending> {
    if pending == [] then []
    else (if pending[0].msgNum in confirmed then [] else [pending[0]]) + Confirm(pending[1..], confirmed)
  }

  // What the log may hold.

  /** How often a command has been transmitted. */
  function Count(log: seq<Tx>, id: nat): nat {
    if log == [] then 0 else Count(log[..|log| - 1], id) + (if log[|log| - 1].id == id then 1 else 0)
  }

  predicate SameCommand(a: Tx, b: Tx) {
    a.msgNum == b.msgNum && a.cmd == b.cmd && a.data == b.data && a.maxRetries == b.maxRetries
  }

  /**
   Within budget; retransmissions repeat number and command and come more than the least delay apart; an
   acknowledgement is asked for exactly when the command may be retried.
   */
  ghost predicate LogOk(log: seq<Tx>, now: int) {
    && (forall i :: 0 <= i < |log| ==>
          && Count(log, log[i].id) <= Budget(log[i].maxRetries) && log[i].at <= now
          && (log[i].wantAck <==> log[i].maxRetries >= 2))
    && forall i, j :: 0 <= i < j < |log| && log[i].id == log[j].id ==>
         SameCommand(log[i], log[j]) && log[j].at - log[i].at > MIN_DELAY
  }

  predicate Repeats(tx: Tx, p: Pending) {
    tx.msgNum == p.msgNum && tx.cmd == p.cmd && tx.data == p.data && tx.maxRetries == p.maxRetries
  }

  ghost predicate Tracked(p: Pending, log: seq<Tx>) {
    && 1 <= p.retryLeft && 1 <= Count(log, p.id) && Count(log, p.id) + p.retryLeft <= Budget(p.maxRetries)
    && MaybeCompress(p.cmd, p.data) == (p.cmd, p.data)
    && forall i :: 0 <= i < |log| && log[i].id == p.id ==> Repeats(log[i], p) && log[i].at <= p.lastSentAt
  }

  ghost predicate AllTracked(pending: seq<Pending>, log: seq<Tx>, now: int) {
    forall i :: 0 <= i < |pending| ==> Tracked(pending[i], log) && pending[i].lastSentAt <= now
  }

  ghost predicate DistinctIds(pending: seq<Pending>) {
    forall i, j :: 0 <= i < j < |pending| ==> pending[i].id != pending[j].id
  }

  ghost predicate IdsBelow(log: seq<Tx>, pending: seq<Pending>, nextId: nat) {
    (forall i :: 0 <= i < |log| ==> log[i].id < nextId) && forall i :: 0 <= i < |pending| ==> pending[i].id < nextId
  }

  ghost predicate Inv(st: State, now: int) {
    && LogOk(st.log, now) && AllTracked(st.pending, st.log, now) && DistinctIds(st.pending)
    && IdsBelow(st.log, st.pending, st.nextId) && KeysUnique(st.pending, KeyOf)
  }

  /** Compressing twice is compressing once. */
  lemma {:induction false} CompressOnce(cmd: byte, data: seq<byte>)
    ensures
      var (c, d) := MaybeCompress(cmd, data);
      MaybeCompress(c, d) == (c, d)
  {
    hide C.MaybeCompressed;
    if !Flagged(cmd) {
      FlagBit(cmd);
    }
  }

  lemma {:induction false} CountAppend(log: seq<Tx>, tx: Tx, id: nat)
    ensures Count(log + [tx], id) == Count(log, id) + (if tx.id == id then 1 else 0)
  {
    assert (log + [tx])[..|log|] == log;
  }

  lemma {:induction false} CountAbsent(log: seq<Tx>, id: nat)
    requires forall i :: 0 <= i < |log| ==> log[i].id != id
    ensures Count(log, id) == 0
  {
    if log != [] {
      CountAbsent(log[..|log| - 1], id);
    }
  }

  /** A transmission of another command changes nothing for a tracked one. */
  lemma {:induction false} TrackedOther(p: Pending, log: seq<Tx>, tx: Tx)
    requires Tracked(p, log) && tx.id != p.id
    ensures Tracked(p, log + [tx])
  {
    hide MaybeCompress;
    CountAppend(log, tx, p.id);
  }

  /** A retransmission keeps the log in order and the command tracked. */
  lemma {:induction false} ResendOne(p: Pending, log: seq<Tx>, cur: int, epoch: nat)
    requires LogOk(log, cur) && Tracked(p, log) && cur - p.lastSentAt > MIN_DELAY
    ensures LogOk(log + [Resent(p, cur, epoch)], cur)
    ensures p.retryLeft > 1 ==>
      Tracked(p.(lastSentAt := cur, retryLeft := p.retryLeft - 1), log + [Resent(p, cur, epoch)])
  {
    hide MaybeCompress, Count;
    var tx := Resent(p, cur, epoch);
    forall id ensures Count(log + [tx], id) == Count(log, id) + (if tx.id == id then 1 else 0) {
      CountAppend(log, tx, id);
    }
  }

  /** What stays of a command while its time and budget change. */
  predicate Same(a: Pending, b: Pending) {
    a.id == b.id && a.msgNum == b.msgNum && a.key == b.key
  }

  predicate Apart(a: Pending, b: Pending) {
    a.id != b.id && (a.key == b.key ==> a.key.IsNone())
  }

  lemma {:induction false} ApartPairs(pending: seq<Pending>)
    ensures Pairwise(pending, Apart) <==> DistinctIds(pending) && KeysUnique(pending, KeyOf)
  {
    if Pairwise(pending, Apart) {
      assert forall i, j :: 0 <= i < j < |pending| ==> Apart(pending[i], pending[j]);
    }
  }

  lemma {:induction false} PendingThinned(part: seq<Pending>, pending: seq<Pending>)
    requires Thinned(part, pending, Same) && DistinctIds(pending) && KeysUnique(pending, KeyOf)
    ensures DistinctIds(part) && KeysUnique(part, KeyOf)
  {
    ApartPairs(pending);
    ApartPairs(part);
    ThinnedKeeps(part, pending, Same, Apart);
  }

  // Retry.

  ghost predicate NotIn(pending: seq<Pending>, id: nat) {
    forall i :: 0 <= i < |pending| ==> pending[i].id != id
  }

  /** A retry pass changes nothing for a command that is not pending. */
  lemma {:induction false} RetryAllOther(pending: seq<Pending>, log: seq<Tx>, cur: int, delay: int, epoch: nat,
      q: Pending)
    requires Tracked(q, log) && NotIn(pending, q.id)
    ensures Tracked(q, RetryAll(pending, log, cur, delay, epoch).1)
    decreases |pending|
  {
    hide Tracked, Resent, Looked, Exhausted, RetryDue;
    if pending != [] {
      LookedOther(pending[0], log, cur, delay, epoch, q);
      assert NotIn(pending[1..], q.id);
      RetryAllOther(pending[1..], LogAfter(log, pending[0], cur, delay, epoch), cur, delay, epoch, q);
    }
  }

  lemma {:induction false} LookedOther(p: Pending, log: seq<Tx>, cur: int, delay: int, epoch: nat, q: Pending)
    requires Tracked(q, log) && p.id != q.id
    ensures Tracked(q, LogAfter(log, p, cur, delay, epoch))
  {
    hide Tracked, Resent;
    ResentIs(p, cur, epoch);
    if RetryDue(p, cur, delay) && epoch > 0 {
      TrackedOther(q, log, Resent(p, cur, epoch));
    }
  }

  lemma {:induction false} ResentIs(p: Pending, cur: int, epoch: nat)
    ensures
      var tx := Resent(p, cur, epoch);
      tx.id == p.id && tx.msgNum == p.msgNum && tx.epoch == epoch
  {
  }

  /** A retry pass keeps the log in order and the commands it leaves tracked. */
  lemma {:induction false} RetryAllKeeps(pending: seq<Pending>, log: seq<Tx>, cur: int, delay: int, epoch: nat)
    requires LogOk(log, cur) && AllTracked(pending, log, cur) && DistinctIds(pending) && delay >= MIN_DELAY
    ensures
      var (kept, log') := RetryAll(pending, log, cur, delay, epoch);
      LogOk(log', cur) && AllTracked(kept, log', cur) && Thinned(kept, pending, Same)
    decreases |pending|
  {
    hide Tracked, LogOk, LogAfter, Looked, Exhausted, Thinned;
    if pending == [] {
      ThinnedSelf(pending, Same);
    } else {
      var p, rest := pending[0], pending[1..];
      assert Tracked(p, log);
      var log1 := LogAfter(log, p, cur, delay, epoch);
      LookOne(p, log, cur, delay, epoch);
      forall i | 0 <= i < |rest| ensures rest[i].id != p.id && Tracked(rest[i], log1) && rest[i].lastSentAt <= cur {
        assert rest[i] == pending[i + 1];
        LookedOther(p, log, cur, delay, epoch, rest[i]);
      }
      RetryAllKeeps(rest, log1, cur, delay, epoch);
      var (tail, log') := RetryAll(rest, log1, cur, delay, epoch);
      var kept := RetryAll(pending, log, cur, delay, epoch).0;
      if Exhausted(p, cur, delay) {
        assert kept == tail;
        ThinnedRest(kept, pending, Same);
      } else {
        var p' := Looked(p, cur, delay);
        RetryAllOther(rest, log1, cur, delay, epoch, p');
        assert kept == [p'] + tail && kept[1..] == tail;
        ThinnedKept(kept, pending, Same);
      }
    }
  }

  lemma {:induction false} LookOne(p: Pending, log: seq<Tx>, cur: int, delay: int, epoch: nat)
    requires LogOk(log, cur) && Tracked(p, log) && p.lastSentAt <= cur && delay >= MIN_DELAY
    ensures
      var log1, p' := LogAfter(log, p, cur, delay, epoch), Looked(p, cur, delay);
      && LogOk(log1, cur) && Same(p', p) && p'.lastSentAt <= cur
      && (!Exhausted(p, cur, delay) ==> Tracked(p', log1))
  {
    hide MaybeCompress, Count, Resent;
    if RetryDue(p, cur, delay) && epoch > 0 {
      ResendOne(p, log, cur, epoch);
    }
  }

  /** Thinning keeps every bound on ids, and numbers stay with their ids. */
  lemma {:induction false} ThinnedFrom(part: seq<Pending>, pending: seq<Pending>, i: nat) returns (k: nat)
    requires Thinned(part, pending, Same) && i < |part|
    ensures k < |pending| && Same(part[i], pending[k])
  {
    ThinnedMembers(part, pending, Same);
    k :| 0 <= k < |pending| && Same(part[i], pending[k]);
  }

  /** Each entry of the log after a retry pass was there before or repeats a pending command under these keys. */
  lemma {:induction false} RetryAllFrom(pending: seq<Pending>, log: seq<Tx>, cur: int, delay: int, epoch: nat, i: nat)
    requires i < |RetryAll(pending, log, cur, delay, epoch).1|
    ensures
      var tx := RetryAll(pending, log, cur, delay, epoch).1[i];
      tx in log || (tx.epoch == epoch && Resends(tx, pending))
    decreases |pending|
  {
    hide Resent, Looked, Exhausted, RetryDue;
    if pending != [] {
      var p, rest := pending[0], pending[1..];
      RetryAllFrom(rest, LogAfter(log, p, cur, delay, epoch), cur, delay, epoch, i);
      ResentIs(p, cur, epoch);
      var tx := RetryAll(pending, log, cur, delay, epoch).1[i];
      if tx !in log {
        if Resends(tx, rest) {
          var k :| 0 <= k < |rest| && rest[k].id == tx.id && rest[k].msgNum == tx.msgNum;
          assert pending[k + 1] == rest[k];
        } else {
          assert tx == Resent(p, cur, epoch) && pending[0].id == tx.id;
        }
      }
    }
  }

  ghost predicate Resends(tx: Tx, pending: seq<Pending>) {
    exists k :: 0 <= k < |pending| && pending[k].id == tx.id && pending[k].msgNum == tx.msgNum
  }

  lemma {:induction false} RetryInv(st: State, cur: int, delay: int)
    requires Inv(st, cur) && delay >= MIN_DELAY
    ensures
      var (kept, log) := RetryAll(st.pending, st.log, cur, delay, st.epoch);
      Inv(st.(pending := kept, log := log), cur)
  {
    hide Tracked, LogOk, RetryAll, Thinned;
    var (kept, log) := RetryAll(st.pending, st.log, cur, delay, st.epoch);
    RetryAllKeeps(st.pending, st.log, cur, delay, st.epoch);
    PendingThinned(kept, st.pending);
    forall i | 0 <= i < |kept| ensures kept[i].id < st.nextId {
      var k := ThinnedFrom(kept, st.pending, i);
    }
    forall i | 0 <= i < |log| ensures log[i].id < st.nextId {
      RetryAllFrom(st.pending, st.log, cur, delay, st.epoch, i);
    }
  }

  // New commands.

  lemma {:induction false} SendNewKeeps(st: State, x: Command, cur: int)
    requires Inv(st, cur) && forall i :: 0 <= i < |st.pending| ==> st.pending[i].key == x.key ==> x.key.IsNone()
    ensures Inv(SendNew(st, x, cur), cur)
    ensures forall i :: 0 <= i < |SendNew(st, x, cur).pending| ==>
      SendNew(st, x, cur).pending[i].key == x.key || SendNew(st, x, cur).pending[i] in st.pending
  {
    hide MaybeCompress, Count;
    if st.epoch > 0 {
      var (cmd, data) := MaybeCompress(x.cmd, x.data);
      CompressOnce(x.cmd, x.data);
      var wantAck := InitialRetryLeft(x.maxRetries) > 0;
      var tx := Tx(st.nextId, st.epoch, st.counter + 1, cmd, data, wantAck, x.maxRetries, cur);
      CountAbsent(st.log, st.nextId);
      CountAppend(st.log, tx, st.nextId);
      NewInLog(st, tx, cur);
      forall i | 0 <= i < |st.pending| ensures Tracked(st.pending[i], st.log + [tx]) {
        TrackedOther(st.pending[i], st.log, tx);
      }
    }
  }

  lemma {:induction false} NewInLog(st: State, tx: Tx, cur: int)
    requires Inv(st, cur) && tx.id == st.nextId && tx.at == cur && (tx.wantAck <==> tx.maxRetries >= 2)
    ensures LogOk(st.log + [tx], cur)
  {
    hide Count;
    CountAbsent(st.log, tx.id);
    forall id ensures Count(st.log + [tx], id) == Count(st.log, id) + (if tx.id == id then 1 else 0) {
      CountAppend(st.log, tx, id);
    }
  }

  /** None of these commands has a key that is pending. */
  ghost predicate KeysFree(pending: seq<Pending>, xs: seq<Command>) {
    forall i, j :: 0 <= i < |xs| && 0 <= j < |pending| && xs[i].key == pending[j].key ==> xs[i].key.IsNone()
  }

  ghost predicate BatchKeysUnique(xs: seq<Command>) {
    forall i, j :: 0 <= i < j < |xs| && xs[i].key == xs[j].key ==> xs[i].key.IsNone()
  }

  lemma {:induction false} SendAllKeeps(st: State, xs: seq<Command>, cur: int)
    requires Inv(st, cur) && KeysFree(st.pending, xs) && BatchKeysUnique(xs)
    ensures Inv(SendAll(st, xs, cur), cur)
    decreases |xs|
  {
    hide Inv, SendNew;
    if xs != [] {
      var st1 := SendNew(st, xs[0], cur);
      SendNewKeeps(st, xs[0], cur);
      forall i, j | 0 <= i < |xs[1..]| && 0 <= j < |st1.pending| && xs[1..][i].key == st1.pending[j].key
        ensures xs[1..][i].key.IsNone()
      {
        assert xs[1..][i] == xs[i + 1];
        if st1.pending[j] in st.pending {
          var k :| 0 <= k < |st.pending| && st.pending[k] == st1.pending[j];
        }
      }
      SendAllKeeps(st1, xs[1..], cur);
    }
  }

  /** Removing a key drops only commands with that key, and leaves none. */
  lemma {:induction false} RemoveKeyLeaves(pending: seq<Pending>, key: UniqueKey)
    requires KeysUnique(pending, KeyOf) && !key.IsNone()
    ensures Thinned(RemoveKey(pending, KeyOf, key), pending, Same)
    ensures forall p :: p in RemoveKey(pending, KeyOf, key) ==> p in pending && p.key != key
  {
    hide Thinned;
    RemoveKeyThins(pending, KeyOf, key, Same);
    RemoveKeyClears(pending, KeyOf, key, key);
  }

  lemma {:induction false} SubsetInv(st: State, part: seq<Pending>, now: int)
    requires Inv(st, now) && Thinned(part, st.pending, Same) && forall p :: p in part ==> p in st.pending
    ensures Inv(st.(pending := part), now)
  {
    hide Tracked, LogOk;
    PendingThinned(part, st.pending);
    forall i | 0 <= i < |part|
      ensures Tracked(part[i], st.log) && part[i].lastSentAt <= now && part[i].id < st.nextId
    {
      assert part[i] in part;
      var k :| 0 <= k < |st.pending| && st.pending[k] == part[i];
    }
  }

  lemma {:induction false} CleanKeysKeeps(st: State, xs: seq<Command>, now: int)
    requires Inv(st, now)
    ensures Inv(st.(pending := CleanKeys(st.pending, xs)), now) && KeysFree(CleanKeys(st.pending, xs), xs)
    ensures forall p :: p in CleanKeys(st.pending, xs) ==> p in st.pending
    decreases |xs|
  {
    hide RemoveKey, Thinned, Tracked, LogOk, IdsBelow;
    if xs != [] {
      var key := xs[0].key;
      var part := if key.IsNone() then st.pending else RemoveKey(st.pending, KeyOf, key);
      if !key.IsNone() {
        RemoveKeyLeaves(st.pending, key);
        SubsetInv(st, part, now);
      }
      CleanKeysKeeps(st.(pending := part), xs[1..], now);
      var r := CleanKeys(st.pending, xs);
      forall i, j | 0 <= i < |xs| && 0 <= j < |r| && xs[i].key == r[j].key ensures xs[i].key.IsNone() {
        if i == 0 {
          assert r[j] in r && r[j] in part;
        } else {
          assert xs[i] == xs[1..][i - 1];
        }
      }
    }
  }

  lemma {:induction false} ConfirmThins(pending: seq<Pending>, confirmed: set<nat>)
    ensures Thinned(Confirm(pending, confirmed), pending, Same)
    ensures forall p :: p in Confirm(pending, confirmed) <==> p in pending && p.msgNum !in confirmed
  {
    if pending != [] {
      ConfirmThins(pending[1..], confirmed);
      if pending[0].msgNum in confirmed {
        assert Confirm(pending, confirmed) == Confirm(pending[1..], confirmed);
      } else {
        assert Confirm(pending, confirmed)[1..] == Confirm(pending[1..], confirmed);
      }
    }
  }

  // Runs.

  datatype Event =
    | Batch(xs: seq<Command>, cur: int)
    | Retry(cur: int, rtt: real)
    | Acked(confirmed: set<nat>)
    | Other(numbers: nat)
    | CounterReset
    | OutboundCleared
    | Rekeyed

  function Step(st: State, e: Event): State {
    match e
    case Batch(xs, cur) => SendAll(Cleaned(st, xs), xs, cur)
    case Retry(cur, rtt) =>
      var (kept, log) := RetryAll(st.pending, st.log, cur, PathDelay(rtt), st.epoch);
      st.(pending := kept, log := log)
    case Acked(confirmed) => st.(pending := Confirm(st.pending, confirmed))
    case Other(numbers) => st.(counter := st.counter + numbers)
    case CounterReset => st.(counter := INITIAL_CRYPTED_MSG_COUNTER)
    case OutboundCleared => st.(pending := [], counter := INITIAL_CRYPTED_MSG_COUNTER)
    case Rekeyed => st.(epoch := st.epoch + 1)
  }

  function Cleaned(st: State, xs: seq<Command>): State {
    st.(pending := CleanKeys(st.pending, xs))
  }

  function TimeAfter(now: int, e: Event): int {
    match e
    case Batch(_, cur) => cur
    case Retry(cur, _) => cur
    case _ => now
  }

  /** Time does not run backwards, and the keys of a batch are distinct, as the send queue keeps them. */
  ghost predicate Legal(e: Event, now: int) {
    now <= TimeAfter(now, e) && (e.Batch? ==> BatchKeysUnique(e.xs))
  }

  lemma {:induction false} InvLater(st: State, now: int, later: int)
    requires Inv(st, now) && now <= later
    ensures Inv(st, later)
  {
    hide Tracked;
  }

  lemma {:induction false} StepKeeps(st: State, e: Event, now: int)
    requires Inv(st, now) && Legal(e, now)
    ensures Inv(Step(st, e), TimeAfter(now, e))
  {
    hide Tracked, LogOk, Thinned, CleanKeys, SendAll, RetryAll, Confirm, KeysFree;
    var cur := TimeAfter(now, e);
    InvLater(st, now, cur);
    match e
    case Batch(xs, _) =>
      CleanKeysKeeps(st, xs, cur);
      SendAllKeeps(Cleaned(st, xs), xs, cur);
    case Retry(_, rtt) => RetryInv(st, cur, PathDelay(rtt));
    case Acked(confirmed) =>
      ConfirmThins(st.pending, confirmed);
      SubsetInv(st, Confirm(st.pending, confirmed), cur);
    case _ =>
  }

  ghost predicate LegalRun(events: seq<Event>, now: int)
    decreases |events|
  {
    events != [] ==> Legal(events[0], now) && LegalRun(events[1..], TimeAfter(now, events[0]))
  }

  function Run(st: State, events: seq<Event>): State
    decreases |events|
  {
    if events == [] then st else Run(Step(st, events[0]), events[1..])
  }

  function TimeAt(now: int, events: seq<Event>): int
    decreases |events|
  {
    if events == [] then now else TimeAt(TimeAfter(now, events[0]), events[1..])
  }

  lemma {:induction false} RunKeeps(st: State, events: seq<Event>, now: int)
    requires Inv(st, now) && LegalRun(events, now)
    ensures Inv(Run(st, events), TimeAt(now, events))
    decreases |events|
  {
    hide Inv, Step, Legal;
    if events != [] {
      StepKeeps(st, events[0], now);
      RunKeeps(Step(st, events[0]), events[1..], TimeAfter(now, events[0]));
    }
  }

  lemma {:induction false} StartInv(now: int)
    ensures Inv(Start(), now)
  {
  }

  /** What every run guarantees, through handshakes, resets of the counter and changes of keys. */
  lemma {:induction false} RetryAccounting(events: seq<Event>, now: int)
    requires LegalRun(events, now)
    ensures
      var st := Run(Start(), events);
      && LogOk(st.log, TimeAt(now, events)) && DistinctIds(st.pending) && KeysUnique(st.pending, KeyOf)
      && forall i :: 0 <= i < |st.pending| ==> Tracked(st.pending[i], st.log)
  {
    hide Tracked, LogOk, Run, LegalRun, IdsBelow;
    StartInv(now);
    RunKeeps(Start(), events, now);
  }
}
