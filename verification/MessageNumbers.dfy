/**
 What a message number names. Numbers are taken from a counter that `full_reset` and
 `clear_outbound_session_data` set back (src/client/socket_lifecycle.rs), while keys change only with an
 accepted answer to a hello (src/client/protocol_recv_state.rs).
 */
module MessageNumbers {
  import opened KeyedLists
  import opened Pipeline
  import opened PendingHigh

  predicate SameNumber(a: Tx, b: Tx) {
    a.epoch == b.epoch && a.msgNum == b.msgNum
  }

  predicate Takes(tx: Tx, epoch: nat, n: nat) {
    tx.epoch == epoch && tx.msgNum == n
  }

  ghost predicate DistinctNums(pending: seq<Pending>) {
    forall i, j :: 0 <= i < j < |pending| ==> pending[i].msgNum != pending[j].msgNum
  }

  ghost predicate LogNamed(log: seq<Tx>) {
    forall i, j :: 0 <= i < |log| && 0 <= j < |log| && SameNumber(log[i], log[j]) ==> log[i].id == log[j].id
  }

  ghost predicate PendingNamed(log: seq<Tx>, pending: seq<Pending>, epoch: nat) {
    forall i, k :: 0 <= i < |log| && 0 <= k < |pending| && Takes(log[i], epoch, pending[k].msgNum) ==>
      log[i].id == pending[k].id
  }

  ghost predicate EpochsUpTo(log: seq<Tx>, epoch: nat) {
    forall i :: 0 <= i < |log| ==> log[i].epoch <= epoch
  }

  /** Under one set of keys a number names one command, among the transmissions and what may still be sent. */
  ghost predicate Named(st: State) {
    && LogNamed(st.log) && PendingNamed(st.log, st.pending, st.epoch) && DistinctNums(st.pending)
    && EpochsUpTo(st.log, st.epoch)
  }

  ghost predicate NoNumber(pending: seq<Pending>, n: nat) {
    forall i :: 0 <= i < |pending| ==> pending[i].msgNum != n
  }

  /** The number has not been used under the present keys, and no pending command has it. */
  ghost predicate NumberFree(st: State, n: nat) {
    NoNumber(st.pending, n) && forall i :: 0 <= i < |st.log| ==> !Takes(st.log[i], st.epoch, n)
  }

  ghost predicate NumbersFree(st: State, count: nat) {
    forall n :: st.counter < n <= st.counter + count ==> NumberFree(st, n)
  }

  // One batch.

  /** What a first transmission adds. */
  lemma {:induction false} SendNewAdds(st: State, x: Command, cur: int)
    requires st.epoch > 0
    ensures
      var st' := SendNew(st, x, cur);
      && st'.epoch == st.epoch && st'.counter == st.counter + 1 && st'.nextId == st.nextId + 1
      && |st'.log| == |st.log| + 1 && st.log <= st'.log
      && st'.log[|st.log|].id == st.nextId && Takes(st'.log[|st.log|], st.epoch, st.counter + 1)
      && st.pending <= st'.pending
      && if InitialRetryLeft(x.maxRetries) > 0 then
           && |st'.pending| == |st.pending| + 1 && st'.pending[|st.pending|].id == st.nextId
           && st'.pending[|st.pending|].msgNum == st.counter + 1
         else st'.pending == st.pending
  {
    hide MaybeCompress;
  }

  /** Sending under a number keeps names apart exactly if the number is free. */
  lemma {:induction false} SendNewNamed(st: State, x: Command, cur: int)
    requires st.epoch > 0 && Named(st) && IdsBelow(st.log, st.pending, st.nextId)
    ensures Named(SendNew(st, x, cur)) <==> NumberFree(st, st.counter + 1)
  {
    hide SendNew, InitialRetryLeft;
    SendNewAdds(st, x, cur);
    var st', n := SendNew(st, x, cur), st.counter + 1;
    var last := |st.log|;
    assert forall i :: 0 <= i < last ==> st'.log[i] == st.log[i];
    assert forall k :: 0 <= k < |st.pending| ==> st'.pending[k] == st.pending[k];
    if !NoNumber(st.pending, n) {
      var k :| 0 <= k < |st.pending| && st.pending[k].msgNum == n;
      TakenTwice(st', last, k);
    } else if !NumberFree(st, n) {
      var i :| 0 <= i < |st.log| && Takes(st.log[i], st.epoch, n);
      SentTwice(st', i, last);
    }
  }

  lemma {:induction false} SentTwice(st: State, i: nat, j: nat)
    requires i < |st.log| && j < |st.log| && SameNumber(st.log[i], st.log[j]) && st.log[i].id != st.log[j].id
    ensures !Named(st)
  {
  }

  lemma {:induction false} TakenTwice(st: State, i: nat, k: nat)
    requires i < |st.log| && k < |st.pending| && Takes(st.log[i], st.epoch, st.pending[k].msgNum)
    requires st.log[i].id != st.pending[k].id
    ensures !Named(st)
  {
  }

  lemma {:induction false} SendNewFree(st: State, x: Command, cur: int, n: nat)
    requires st.epoch > 0 && n > st.counter + 1
    ensures NumberFree(SendNew(st, x, cur), n) <==> NumberFree(st, n)
  {
    hide SendNew, InitialRetryLeft;
    SendNewAdds(st, x, cur);
    var st' := SendNew(st, x, cur);
    assert forall i :: 0 <= i < |st.log| ==> st'.log[i] == st.log[i];
    assert forall k :: 0 <= k < |st.pending| ==> st'.pending[k] == st.pending[k];
  }

  lemma {:induction false} SendNewIds(st: State, x: Command, cur: int)
    requires st.epoch > 0 && IdsBelow(st.log, st.pending, st.nextId)
    ensures
      var st' := SendNew(st, x, cur);
      IdsBelow(st'.log, st'.pending, st'.nextId)
  {
    hide SendNew, InitialRetryLeft;
    SendNewAdds(st, x, cur);
    var st' := SendNew(st, x, cur);
    assert forall i :: 0 <= i < |st.log| ==> st'.log[i] == st.log[i];
    assert forall k :: 0 <= k < |st.pending| ==> st'.pending[k] == st.pending[k];
  }

  lemma {:induction false} SendAllExtends(st: State, xs: seq<Command>, cur: int)
    requires st.epoch > 0
    ensures
      var st' := SendAll(st, xs, cur);
      st'.epoch == st.epoch && st.log <= st'.log && st.pending <= st'.pending
    decreases |xs|
  {
    hide SendNew;
    if xs != [] {
      SendNewAdds(st, xs[0], cur);
      SendAllExtends(SendNew(st, xs[0], cur), xs[1..], cur);
    }
  }

  /** Two names for one number stay two names. */
  lemma {:induction false} StaysUnnamed(st: State, st': State)
    requires st'.epoch == st.epoch && st.log <= st'.log && st.pending <= st'.pending && Named(st')
    ensures Named(st)
  {
    assert forall i :: 0 <= i < |st.log| ==> st'.log[i] == st.log[i];
    assert forall k :: 0 <= k < |st.pending| ==> st'.pending[k] == st.pending[k];
  }

  lemma {:induction false} NumbersFreeFirst(st: State, x: Command, cur: int, count: nat)
    requires st.epoch > 0
    ensures NumbersFree(st, count + 1) <==>
      NumberFree(st, st.counter + 1) && NumbersFree(SendNew(st, x, cur), count)
  {
    hide NumberFree, SendNew;
    SendNewAdds(st, x, cur);
    var st' := SendNew(st, x, cur);
    forall n | st.counter + 1 < n <= st.counter + count + 1 ensures NumberFree(st', n) <==> NumberFree(st, n) {
      SendNewFree(st, x, cur, n);
    }
  }

  /** After a batch each number still names one command exactly if all the numbers the batch takes were free. */
  lemma {:induction false} NamedIffFree(st: State, xs: seq<Command>, cur: int)
    requires st.epoch > 0 && Named(st) && IdsBelow(st.log, st.pending, st.nextId)
    ensures Named(SendAll(st, xs, cur)) <==> NumbersFree(st, |xs|)
    decreases |xs|
  {
    hide Named, NumberFree, NumbersFree, SendNew, IdsBelow;
    if xs == [] {
      NoneFree(st);
    } else {
      var st1 := SendNew(st, xs[0], cur);
      SendNewAdds(st, xs[0], cur);
      SendNewNamed(st, xs[0], cur);
      NumbersFreeFirst(st, xs[0], cur, |xs| - 1);
      if Named(st1) {
        SendNewIds(st, xs[0], cur);
        NamedIffFree(st1, xs[1..], cur);
      } else {
        SendAllExtends(st1, xs[1..], cur);
        if Named(SendAll(st1, xs[1..], cur)) {
          StaysUnnamed(st1, SendAll(st1, xs[1..], cur));
        }
      }
    }
  }

  lemma {:induction false} NoneFree(st: State)
    ensures NumbersFree(st, 0)
  {
  }

  // Runs.

  /** A batch that is sent takes only free numbers. */
  ghost predicate FreeStep(st: State, e: Event) {
    e.Batch? && st.epoch > 0 ==> NumbersFree(Cleaned(st, e.xs), |e.xs|)
  }

  ghost predicate FreeRun(st: State, events: seq<Event>)
    decreases |events|
  {
    events != [] ==> FreeStep(st, events[0]) && FreeRun(Step(st, events[0]), events[1..])
  }

  predicate NumsDiffer(a: Pending, b: Pending) {
    a.msgNum != b.msgNum
  }

  lemma {:induction false} ThinnedNamed(st: State, part: seq<Pending>)
    requires Named(st) && Thinned(part, st.pending, Same)
    ensures Named(st.(pending := part))
  {
    hide Thinned, LogNamed, EpochsUpTo;
    assert Pairwise(st.pending, NumsDiffer);
    ThinnedKeeps(part, st.pending, Same, NumsDiffer);
    assert forall i, j :: 0 <= i < j < |part| ==> NumsDiffer(part[i], part[j]);
    forall i, k | 0 <= i < |st.log| && 0 <= k < |part| && Takes(st.log[i], st.epoch, part[k].msgNum)
      ensures st.log[i].id == part[k].id
    {
      var m := ThinnedFrom(part, st.pending, k);
    }
  }

  lemma {:induction false} CleanKeysNamed(st: State, xs: seq<Command>)
    requires Named(st)
    ensures Named(Cleaned(st, xs))
    decreases |xs|
  {
    hide Named, Thinned, RemoveKey;
    if xs != [] {
      var key := xs[0].key;
      var part := if key.IsNone() then st.pending else RemoveKey(st.pending, KeyOf, key);
      if !key.IsNone() {
        RemoveKeyThins(st.pending, KeyOf, key, Same);
        ThinnedNamed(st, part);
      }
      CleanKeysNamed(st.(pending := part), xs[1..]);
    }
  }

  /** Without a cipher a batch only uses up numbers. */
  lemma {:induction false} SendAllMute(st: State, xs: seq<Command>, cur: int)
    requires st.epoch == 0
    ensures SendAll(st, xs, cur) == st.(counter := st.counter + |xs|)
    decreases |xs|
  {
    hide MaybeCompress;
    if xs != [] {
      SendAllMute(SendNew(st, xs[0], cur), xs[1..], cur);
    }
  }

  /** An entry of the log after a retry pass, and what it goes back to. */
  lemma {:induction false} RetriedFrom(st: State, cur: int, delay: int, i: nat) returns (was: bool, k: nat)
    requires i < |RetryAll(st.pending, st.log, cur, delay, st.epoch).1|
    ensures
      var tx := RetryAll(st.pending, st.log, cur, delay, st.epoch).1[i];
      if was then k < |st.log| && st.log[k] == tx
      else k < |st.pending| && Takes(tx, st.epoch, st.pending[k].msgNum) && tx.id == st.pending[k].id
  {
    hide RetryAll;
    RetryAllFrom(st.pending, st.log, cur, delay, st.epoch, i);
    var tx := RetryAll(st.pending, st.log, cur, delay, st.epoch).1[i];
    if tx in st.log {
      was := true;
      k :| 0 <= k < |st.log| && st.log[k] == tx;
    } else {
      was := false;
      k :| 0 <= k < |st.pending| && st.pending[k].id == tx.id && st.pending[k].msgNum == tx.msgNum;
    }
  }

  lemma {:induction false} RetryNamed(st: State, cur: int, delay: int)
    requires Named(st) && Inv(st, cur) && delay >= MIN_DELAY
    ensures
      var (kept, log) := RetryAll(st.pending, st.log, cur, delay, st.epoch);
      Named(st.(pending := kept, log := log))
  {
    hide RetryAll, Thinned, Tracked, LogOk;
    var (kept, log) := RetryAll(st.pending, st.log, cur, delay, st.epoch);
    RetryAllKeeps(st.pending, st.log, cur, delay, st.epoch);
    RetriedLogNamed(st, cur, delay);
    ThinnedNamed(st.(log := log), kept);
  }

  lemma {:induction false} RetriedLogNamed(st: State, cur: int, delay: int)
    requires Named(st)
    ensures Named(st.(log := RetryAll(st.pending, st.log, cur, delay, st.epoch).1))
  {
    hide RetryAll;
    var log := RetryAll(st.pending, st.log, cur, delay, st.epoch).1;
    forall i | 0 <= i < |log| ensures log[i].epoch <= st.epoch {
      var was, k := RetriedFrom(st, cur, delay, i);
    }
    forall i, k | 0 <= i < |log| && 0 <= k < |st.pending| && Takes(log[i], st.epoch, st.pending[k].msgNum)
      ensures log[i].id == st.pending[k].id
    {
      var was, m := RetriedFrom(st, cur, delay, i);
      if !was {
        assert k == m;
      }
    }
    forall i, j | 0 <= i < |log| && 0 <= j < |log| && SameNumber(log[i], log[j]) ensures log[i].id == log[j].id {
      var wasI, k := RetriedFrom(st, cur, delay, i);
      var wasJ, m := RetriedFrom(st, cur, delay, j);
      if !wasI {
        assert Takes(log[j], st.epoch, st.pending[k].msgNum);
      } else if !wasJ {
        assert Takes(log[i], st.epoch, st.pending[m].msgNum);
      }
    }
  }

  lemma {:induction false} StepNamed(st: State, e: Event, now: int)
    requires Inv(st, now) && Legal(e, now) && Named(st) && FreeStep(st, e)
    ensures Named(Step(st, e))
  {
    hide Inv, CleanKeys, SendAll, RetryAll, Confirm, NumbersFree, LogNamed;
    match e
    case Batch(xs, cur) =>
      CleanKeysNamed(st, xs);
      if st.epoch == 0 {
        SendAllMute(Cleaned(st, xs), xs, cur);
      } else {
        InvLater(st, now, cur);
        CleanKeysKeeps(st, xs, cur);
        InvIds(Cleaned(st, xs), cur);
        NamedIffFree(Cleaned(st, xs), xs, cur);
      }
    case Retry(cur, rtt) =>
      InvLater(st, now, cur);
      RetryNamed(st, cur, PathDelay(rtt));
    case Acked(confirmed) =>
      ConfirmThins(st.pending, confirmed);
      ThinnedNamed(st, Confirm(st.pending, confirmed));
    case _ =>
  }

  lemma {:induction false} InvIds(st: State, now: int)
    requires Inv(st, now)
    ensures IdsBelow(st.log, st.pending, st.nextId)
  {
  }

  lemma {:induction false} RunNamed(st: State, events: seq<Event>, now: int)
    requires Inv(st, now) && LegalRun(events, now) && Named(st) && FreeRun(st, events)
    ensures Named(Run(st, events))
    decreases |events|
  {
    hide Inv, Step, Legal, Named, FreeStep;
    if events != [] {
      StepNamed(st, events[0], now);
      StepKeeps(st, events[0], now);
      RunNamed(Step(st, events[0]), events[1..], TimeAfter(now, events[0]));
    }
  }

  /** On every run whose batches take free numbers a number names one command under each set of keys. */
  lemma {:induction false} NumbersName(events: seq<Event>, now: int)
    requires LegalRun(events, now) && FreeRun(Start(), events)
    ensures Named(Run(Start(), events))
  {
    hide Inv, LegalRun, FreeRun, Run;
    StartInv(now);
    StartNamed();
    RunNamed(Start(), events, now);
  }

  lemma {:induction false} StartNamed()
    ensures Named(Start())
  {
  }

  // When numbers take care of themselves.

  /**
   Since when numbers may repeat: `Restarted` after a reset of the counter alone, `Cleared` after one that
   also dropped what was pending. New keys make good the second.
   */
  datatype Phase = Running | Restarted | Cleared

  function PhaseAfter(phase: Phase, e: Event): Phase {
    match e
    case CounterReset => if phase.Cleared? then Cleared else Restarted
    case OutboundCleared => Cleared
    case Rekeyed => if phase.Cleared? then Running else phase
    case _ => phase
  }

  /** Nothing new is encrypted between a reset of the counter and the next keys. */
  predicate Orderly(phase: Phase, epoch: nat, events: seq<Event>)
    decreases |events|
  {
    events != [] ==>
      var e := events[0];
      && (e.Batch? && epoch > 0 ==> phase.Running?)
      && Orderly(PhaseAfter(phase, e), if e.Rekeyed? then epoch + 1 else epoch, events[1..])
  }

  ghost predicate PendingUpTo(pending: seq<Pending>, counter: nat) {
    forall k :: 0 <= k < |pending| ==> pending[k].msgNum <= counter
  }

  ghost predicate LogUpTo(log: seq<Tx>, epoch: nat, counter: nat) {
    forall i :: 0 <= i < |log| && log[i].epoch == epoch ==> log[i].msgNum <= counter
  }

  /** While numbers run on, the counter has passed all of them; once cleared, nothing is pending. */
  ghost predicate Standing(st: State, phase: Phase) {
    && EpochsUpTo(st.log, st.epoch)
    && (phase.Running? ==> PendingUpTo(st.pending, st.counter) && LogUpTo(st.log, st.epoch, st.counter))
    && (phase.Cleared? ==> st.pending == [])
  }

  lemma {:induction false} SendAllStanding(st: State, xs: seq<Command>, cur: int)
    requires st.epoch > 0 && Standing(st, Running)
    ensures Standing(SendAll(st, xs, cur), Running) && SendAll(st, xs, cur).epoch == st.epoch
    decreases |xs|
  {
    hide SendNew, InitialRetryLeft;
    if xs != [] {
      SendNewAdds(st, xs[0], cur);
      var st' := SendNew(st, xs[0], cur);
      assert forall i :: 0 <= i < |st.log| ==> st'.log[i] == st.log[i];
      assert forall k :: 0 <= k < |st.pending| ==> st'.pending[k] == st.pending[k];
      SendAllStanding(st', xs[1..], cur);
    }
  }

  lemma {:induction false} SubsetUpTo(part: seq<Pending>, pending: seq<Pending>, counter: nat)
    requires PendingUpTo(pending, counter) && forall p :: p in part ==> p in pending
    ensures PendingUpTo(part, counter)
  {
    forall k | 0 <= k < |part| ensures part[k].msgNum <= counter {
      assert part[k] in part;
      var m :| 0 <= m < |pending| && pending[m] == part[k];
    }
  }

  lemma {:induction false} CleanKeysSubset(pending: seq<Pending>, xs: seq<Command>)
    ensures forall p :: p in CleanKeys(pending, xs) ==> p in pending
    decreases |xs|
  {
    hide Thinned, RemoveKey;
    if xs != [] {
      RemoveKeyThins(pending, KeyOf, xs[0].key, Same);
      CleanKeysSubset(if xs[0].key.IsNone() then pending else RemoveKey(pending, KeyOf, xs[0].key), xs[1..]);
    }
  }

  lemma {:induction false} RetryStanding(st: State, phase: Phase, cur: int, delay: int)
    requires Standing(st, phase)
    ensures
      var (kept, log) := RetryAll(st.pending, st.log, cur, delay, st.epoch);
      Standing(st.(pending := kept, log := log), phase)
  {
    hide RetryAll;
    var (kept, log) := RetryAll(st.pending, st.log, cur, delay, st.epoch);
    forall i | 0 <= i < |log|
      ensures log[i].epoch <= st.epoch
      ensures phase.Running? && log[i].epoch == st.epoch ==> log[i].msgNum <= st.counter
    {
      var was, k := RetriedFrom(st, cur, delay, i);
    }
    KeptNumbers(st.pending, st.log, cur, delay, st.epoch);
    forall i | 0 <= i < |kept| && phase.Running? ensures kept[i].msgNum <= st.counter {
      var k := ThinnedFrom(kept, st.pending, i);
    }
    if phase.Cleared? {
      assert kept == [];
    }
  }

  lemma {:induction false} KeptNumbers(pending: seq<Pending>, log: seq<Tx>, cur: int, delay: int, epoch: nat)
    ensures Thinned(RetryAll(pending, log, cur, delay, epoch).0, pending, Same)
    decreases |pending|
  {
    hide LogAfter, RetryDue, Thinned;
    if pending == [] {
      ThinnedSelf(pending, Same);
    } else {
      var p, log1 := pending[0], LogAfter(log, pending[0], cur, delay, epoch);
      KeptNumbers(pending[1..], log1, cur, delay, epoch);
      var tail, kept := RetryAll(pending[1..], log1, cur, delay, epoch).0, RetryAll(pending, log, cur, delay, epoch).0;
      if Exhausted(p, cur, delay) {
        assert kept == tail;
        ThinnedRest(kept, pending, Same);
      } else {
        assert kept[1..] == tail;
        ThinnedKept(kept, pending, Same);
      }
    }
  }

  lemma {:induction false} StandingFree(st: State, count: nat)
    requires Standing(st, Running)
    ensures NumbersFree(st, count)
  {
  }

  lemma {:induction false} StepStanding(st: State, e: Event, phase: Phase)
    requires Standing(st, phase) && (e.Batch? && st.epoch > 0 ==> phase.Running?)
    ensures Standing(Step(st, e), PhaseAfter(phase, e)) && FreeStep(st, e)
    ensures Step(st, e).epoch == if e.Rekeyed? then st.epoch + 1 else st.epoch
  {
    hide CleanKeys, SendAll, RetryAll, Confirm, NumbersFree;
    match e
    case Batch(xs, cur) =>
      CleanKeysSubset(st.pending, xs);
      BatchStanding(st, xs, cur, phase);
    case Retry(cur, rtt) => RetryStanding(st, phase, cur, PathDelay(rtt));
    case Acked(confirmed) =>
      ConfirmThins(st.pending, confirmed);
      if phase.Running? {
        SubsetUpTo(Confirm(st.pending, confirmed), st.pending, st.counter);
      } else if phase.Cleared? {
        NoneConfirmed(confirmed);
      }
    case _ =>
  }

  lemma {:induction false} NoneConfirmed(confirmed: set<nat>)
    ensures Confirm([], confirmed) == []
  {
  }

  lemma {:induction false} NoneCleaned(xs: seq<Command>)
    ensures CleanKeys([], xs) == []
    decreases |xs|
  {
    if xs != [] {
      NoneCleaned(xs[1..]);
    }
  }

  lemma {:induction false} BatchStanding(st: State, xs: seq<Command>, cur: int, phase: Phase)
    requires Standing(st, phase) && (st.epoch > 0 ==> phase.Running?)
    requires forall p :: p in CleanKeys(st.pending, xs) ==> p in st.pending
    ensures Standing(SendAll(Cleaned(st, xs), xs, cur), phase) && SendAll(Cleaned(st, xs), xs, cur).epoch == st.epoch
    ensures st.epoch > 0 ==> NumbersFree(Cleaned(st, xs), |xs|)
  {
    hide CleanKeys, SendAll, NumbersFree;
    if phase.Running? {
      SubsetUpTo(CleanKeys(st.pending, xs), st.pending, st.counter);
    } else if phase.Cleared? {
      NoneCleaned(xs);
    }
    if st.epoch == 0 {
      SendAllMute(Cleaned(st, xs), xs, cur);
    } else {
      StandingFree(Cleaned(st, xs), |xs|);
      SendAllStanding(Cleaned(st, xs), xs, cur);
    }
  }

  /** Where nothing new is encrypted between a reset of the counter and the next keys, all numbers taken are free. */
  lemma {:induction false} FreshWithoutReset(st: State, events: seq<Event>, phase: Phase)
    requires Standing(st, phase) && Orderly(phase, st.epoch, events)
    ensures FreeRun(st, events)
    decreases |events|
  {
    hide Standing, Step, FreeStep;
    if events != [] {
      StepStanding(st, events[0], phase);
      FreshWithoutReset(Step(st, events[0]), events[1..], PhaseAfter(phase, events[0]));
    }
  }

  lemma {:induction false} StartStanding()
    ensures Standing(Start(), Running)
  {
  }

  // What a reset costs.

  /** The numbers under which a batch will be pending. */
  function Taken(counter: nat, xs: seq<Command>): set<nat>
    decreases |xs|
  {
    if xs == [] then {}
    else (if InitialRetryLeft(xs[0].maxRetries) > 0 then {counter + 1} else {}) + Taken(counter + 1, xs[1..])
  }

  lemma {:induction false} TakenAbove(counter: nat, xs: seq<Command>)
    ensures forall n :: n in Taken(counter, xs) ==> n > counter
    decreases |xs|
  {
    if xs != [] {
      TakenAbove(counter + 1, xs[1..]);
    }
  }

  lemma {:induction false} SendNewPending(st: State, x: Command, cur: int)
    requires st.epoch > 0 && DistinctNums(st.pending) && InitialRetryLeft(x.maxRetries) > 0
    ensures
      var st' := SendNew(st, x, cur);
      && (DistinctNums(st'.pending) <==> NoNumber(st.pending, st.counter + 1))
      && (forall n :: NoNumber(st'.pending, n) <==> NoNumber(st.pending, n) && n != st.counter + 1)
  {
    hide SendNew, InitialRetryLeft;
    SendNewAdds(st, x, cur);
    var st' := SendNew(st, x, cur);
    var last := |st.pending|;
    assert forall k :: 0 <= k < last ==> st'.pending[k] == st.pending[k];
    forall n ensures NoNumber(st'.pending, n) <==> NoNumber(st.pending, n) && n != st.counter + 1 {
      if NoNumber(st'.pending, n) {
        assert st'.pending[last].msgNum != n;
        assert forall k :: 0 <= k < last ==> st'.pending[k].msgNum != n;
      }
    }
  }

  lemma {:induction false} StaysDoubled(part: seq<Pending>, pending: seq<Pending>)
    requires !DistinctNums(part) && part <= pending
    ensures !DistinctNums(pending)
  {
    var i, j :| 0 <= i < j < |part| && part[i].msgNum == part[j].msgNum;
    assert pending[i] == part[i] && pending[j] == part[j];
  }

  /**
   Whatever the counter: after a batch pending numbers are distinct exactly if none of the numbers under
   which the batch will be pending is still pending.
   */
  lemma {:induction false} DistinctIffFree(st: State, xs: seq<Command>, cur: int)
    requires st.epoch > 0 && DistinctNums(st.pending)
    ensures DistinctNums(SendAll(st, xs, cur).pending) <==>
      forall n :: n in Taken(st.counter, xs) ==> NoNumber(st.pending, n)
    decreases |xs|
  {
    hide DistinctNums, NoNumber, SendNew, InitialRetryLeft;
    if xs != [] {
      var st1 := SendNew(st, xs[0], cur);
      SendNewAdds(st, xs[0], cur);
      TakenAbove(st1.counter, xs[1..]);
      if InitialRetryLeft(xs[0].maxRetries) > 0 {
        SendNewPending(st, xs[0], cur);
      }
      if DistinctNums(st1.pending) {
        DistinctIffFree(st1, xs[1..], cur);
      } else {
        SendAllExtends(st1, xs[1..], cur);
        StaysDoubled(st1.pending, SendAll(st1, xs[1..], cur).pending);
        assert st.counter + 1 in Taken(st.counter, xs);
      }
    }
  }

  lemma {:induction false} SingleBatch(st: State, x: Command, cur: int)
    requires |st.pending| <= 1 && forall p :: p in st.pending ==> p.key == x.key ==> x.key.IsNone()
    ensures Step(st, Batch([x], cur)) == SendNew(st, x, cur)
  {
    hide SendNew;
    var xs := [x];
    assert xs[0] == x && xs[1..] == [];
    if st.pending != [] {
      assert st.pending[0] in st.pending && st.pending[1..] == [] && [st.pending[0]] + [] == st.pending;
    }
    assert !x.key.IsNone() ==> RemoveKey(st.pending, KeyOf, x.key) == st.pending;
    assert CleanKeys(st.pending, xs) == CleanKeys(st.pending, []) == st.pending;
    assert st.(pending := st.pending) == st;
    assert SendAll(st, xs, cur) == SendAll(SendNew(st, x, cur), [], cur);
  }

  /**
   A reset of the counter alone: a command sent, the counter reset, another command sent. Both are pending
   under the first number, and one confirmation takes both away.
   */
  lemma {:induction false} ReusedNumber(x: Command, y: Command, cur: int)
    requires x.maxRetries >= 2 && y.maxRetries >= 2 && (x.key == y.key ==> x.key.IsNone())
    ensures
      var first := INITIAL_CRYPTED_MSG_COUNTER + 1;
      var st := Run(Start(), [Rekeyed, Batch([x], cur), CounterReset, Batch([y], cur)]);
      && |st.pending| == 2 && st.pending[0].msgNum == st.pending[1].msgNum == first && !DistinctNums(st.pending)
      && Step(st, Acked({first})).pending == []
  {
    hide SendNew, CleanKeys, SendAll;
    var first := INITIAL_CRYPTED_MSG_COUNTER + 1;
    var events := [Rekeyed, Batch([x], cur), CounterReset, Batch([y], cur)];
    RunOfFour(Start(), events);
    var st0 := Step(Start(), Rekeyed);
    SingleBatch(st0, x, cur);
    SendNewAdds(st0, x, cur);
    var st1 := Step(SendNew(st0, x, cur), CounterReset);
    var p := st1.pending[0];
    assert st1.pending == [p];
    KeyOfFirst(st0, x, cur);
    SingleBatch(st1, y, cur);
    SendNewAdds(st1, y, cur);
    var st2 := SendNew(st1, y, cur);
    var q := st2.pending[1];
    assert st2.pending == [p, q] && p.msgNum == q.msgNum == first;
    assert [p, q][1..] == [q] && [q][1..] == [];
    assert Confirm([q], {first}) == [] + Confirm([], {first}) == [];
    assert Confirm([p, q], {first}) == [] + Confirm([q], {first});
  }

  lemma {:induction false} KeyOfFirst(st: State, x: Command, cur: int)
    requires st.epoch > 0 && st.pending == [] && InitialRetryLeft(x.maxRetries) > 0
    ensures |SendNew(st, x, cur).pending| == 1 && SendNew(st, x, cur).pending[0].key == x.key
  {
    hide MaybeCompress;
  }

  lemma {:induction false} RunOfFour(st: State, events: seq<Event>)
    requires |events| == 4
    ensures Run(st, events) == Step(Step(Step(Step(st, events[0]), events[1]), events[2]), events[3])
  {
    hide Step;
    var st1 := Step(st, events[0]);
    var st2 := Step(st1, events[1]);
    var st3 := Step(st2, events[2]);
    assert events[1..][1..] == events[2..] && events[2..][1..] == events[3..] && events[3..][1..] == [];
    assert Run(st3, events[3..]) == Run(Step(st3, events[3]), []);
    assert Run(st2, events[2..]) == Run(st3, events[3..]);
    assert Run(st1, events[1..]) == Run(st2, events[2..]);
  }

  /**
   The outbound data is cleared when a handshake begins, and the new keys come only with its answer: a
   command sent in between goes out under the old keys with a number they have carried before.
   */
  lemma {:induction false} ReusedBeforeKeys(x: Command, y: Command, cur: int)
    ensures
      var st := Run(Start(), [Rekeyed, Batch([x], cur), OutboundCleared, Batch([y], cur)]);
      |st.log| == 2 && SameNumber(st.log[0], st.log[1]) && st.log[0].id != st.log[1].id && !Named(st)
  {
    hide SendNew, CleanKeys, SendAll, InitialRetryLeft;
    var events := [Rekeyed, Batch([x], cur), OutboundCleared, Batch([y], cur)];
    RunOfFour(Start(), events);
    var st0 := Step(Start(), Rekeyed);
    SingleBatch(st0, x, cur);
    SendNewAdds(st0, x, cur);
    var st1 := Step(SendNew(st0, x, cur), OutboundCleared);
    SingleBatch(st1, y, cur);
    SendNewAdds(st1, y, cur);
    var st2 := SendNew(st1, y, cur);
    assert st2.log[0] == st1.log[0];
    SentTwice(st2, 0, 1);
  }
}
