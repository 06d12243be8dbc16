/** The all-trades unsubscribe and resubscribe sequence (src/client/subscription_api.rs). */
module TradesReconnect {
  import opened Bytes
  import opened Numbers

  const DEFAULT_PENDING_TIMEOUT_MS: int := 12000
  const TRADES_RECONNECT_THROTTLE_MS: int := 5000
  const TRADES_RECONNECT_RESUBSCRIBE_DELAY_MS: int := 100
  const TRADES_STREAM_SILENCE_MS: int := 15000
  const NEVER_TIME_MS: int := -0x4000_0000_0000_0000

  datatype Intent = Unspecified | Subscribed(wantMm: bool) | Unsubscribed

  datatype PendingUnsubscribe = PendingUnsubscribe(uid: nat, sentMs: int)

  /** Requests in the order they were queued; `Repair` repeats an unsubscribe outside the sequence. */
  datatype Request = Unsubscribe(uid: nat, at: int) | Resubscribe(wantMm: bool, at: int) | Repair(at: int)

  /** The latest request of the sequence itself. */
  function Latest(log: seq<Request>): Option<Request> {
    if log == [] then None
    else if log[|log| - 1].Repair? then Latest(log[..|log| - 1]) else Some(log[|log| - 1])
  }

  function LatestStart(log: seq<Request>): Option<int> {
    if log == [] then None
    else if log[|log| - 1].Unsubscribe? then Some(log[|log| - 1].at) else LatestStart(log[..|log| - 1])
  }

  /** Each request may follow the ones before it. */
  ghost predicate LogOk(log: seq<Request>) {
    log != [] ==>
      var front, last := log[..|log| - 1], log[|log| - 1];
      && LogOk(front)
      && (last.Unsubscribe? && LatestStart(front).Some? ==>
            last.at - LatestStart(front).value >= TRADES_RECONNECT_THROTTLE_MS)
      && (last.Resubscribe? ==>
            Latest(front).Some? && Latest(front).value.Unsubscribe?
            && last.at - Latest(front).value.at >= TRADES_RECONNECT_RESUBSCRIBE_DELAY_MS)
  }

  lemma {:induction false} Appended(log: seq<Request>, r: Request)
    ensures (log + [r])[..|log|] == log && (log + [r])[|log|] == r
    ensures Latest(log + [r]) == if r.Repair? then Latest(log) else Some(r)
    ensures LatestStart(log + [r]) == if r.Unsubscribe? then Some(r.at) else LatestStart(log)
  {
    assert (log + [r])[..|log|] == log;
  }

  lemma {:induction false} LatestStartBounds(log: seq<Request>, i: nat)
    requires LogOk(log) && i < |log| && log[i].Unsubscribe?
    ensures LatestStart(log).Some? && log[i].at <= LatestStart(log).value
  {
    if i < |log| - 1 {
      LatestStartBounds(log[..|log| - 1], i);
    }
  }

  /** Any two sequences start at least 5 seconds apart. */
  lemma {:induction false} StartsApart(log: seq<Request>, i: nat, j: nat)
    requires LogOk(log) && i < j < |log| && log[i].Unsubscribe? && log[j].Unsubscribe?
    ensures log[j].at - log[i].at >= TRADES_RECONNECT_THROTTLE_MS
  {
    var front := log[..|log| - 1];
    if j == |log| - 1 {
      LatestStartBounds(front, i);
    } else {
      StartsApart(front, i, j);
    }
  }

  /** A resubscribe has its own unsubscribe, 100 ms or more before, with nothing of the sequence in between. */
  lemma {:induction false} ResubscribeFollows(log: seq<Request>, j: nat) returns (i: nat)
    requires LogOk(log) && j < |log| && log[j].Resubscribe?
    ensures i < j && log[i].Unsubscribe? && log[j].at - log[i].at >= TRADES_RECONNECT_RESUBSCRIBE_DELAY_MS
    ensures forall k :: i < k < j ==> log[k].Repair?
  {
    if j == |log| - 1 {
      i := LatestIndex(log[..j]);
    } else {
      i := ResubscribeFollows(log[..|log| - 1], j);
    }
  }

  lemma {:induction false} LatestIndex(log: seq<Request>) returns (i: nat)
    requires Latest(log).Some?
    ensures i < |log| && log[i] == Latest(log).value && forall k :: i < k < |log| ==> log[k].Repair?
  {
    var last := |log| - 1;
    if log[last].Repair? {
      i := LatestIndex(log[..last]);
    } else {
      i := last;
    }
  }

  /** What the sequence depends on and does not change. */
  datatype Surroundings = Surroundings(domainReady: bool, authorized: bool, intent: Intent, serverToken: nat)

  /** `lastTick` is the time of the last tick, `latest` the latest time any handler used. */
  datatype Trades = Trades(
    around: Surroundings, lastSubscribeRequestMs: int, lastCheckMs: int, lastStreamMs: int,
    pendingUnsubscribe: Option<PendingUnsubscribe>, resubscribeAfterMs: Option<int>, log: seq<Request>,
    lastTick: int, latest: int)

  function Start(): Trades {
    var around := Surroundings(false, false, Unspecified, 0);
    Trades(around, NEVER_TIME_MS, NEVER_TIME_MS, NEVER_TIME_MS, None, None, [], 0, 0)
  }

  function Later(t: Trades, now: int): Trades {
    t.(latest := if t.latest < now then now else t.latest)
  }

  /** The gates of a new sequence: a wanted stream that belongs to another session, or has gone silent. */
  predicate MayStart(t: Trades, now: int, tradesServerToken: nat) {
    && t.around.intent.Subscribed? && t.around.serverToken != 0
    && (t.around.serverToken == tradesServerToken ==>
          && t.lastStreamMs != NEVER_TIME_MS && Abs(now - t.lastStreamMs) >= TRADES_STREAM_SILENCE_MS
          && Abs(now - t.lastCheckMs) >= TRADES_STREAM_SILENCE_MS)
    && Abs(now - t.lastCheckMs) >= TRADES_RECONNECT_THROTTLE_MS
  }

  function Started(t: Trades, now: int, uid: nat): Trades {
    t.(lastCheckMs := now, log := t.log + [Unsubscribe(uid, now)],
       pendingUnsubscribe := Some(PendingUnsubscribe(uid, now)), resubscribeAfterMs := None)
  }

  /** A scheduled resubscribe that is due is sent if the intent still stands, and forgotten otherwise. */
  function Resubscribed(t: Trades, now: int): Trades {
    if !t.around.intent.Subscribed? then t.(resubscribeAfterMs := None)
    else t.(
      resubscribeAfterMs := None, log := t.log + [Resubscribe(t.around.intent.wantMm, now)],
      lastSubscribeRequestMs := now)
  }

  function Ticked(t: Trades, now: int, tradesServerToken: nat, uid: nat): Trades {
    Sequenced(Later(t.(lastTick := now), now), now, tradesServerToken, uid)
  }

  function Sequenced(t: Trades, now: int, tradesServerToken: nat, uid: nat): Trades {
    if !t.around.domainReady then t
    else if t.lastSubscribeRequestMs != NEVER_TIME_MS
            && Abs(now - t.lastSubscribeRequestMs) < DEFAULT_PENDING_TIMEOUT_MS then t
    else if t.pendingUnsubscribe.Some? then
      if Abs(now - t.pendingUnsubscribe.value.sentMs) < DEFAULT_PENDING_TIMEOUT_MS then t
      else t.(pendingUnsubscribe := None, resubscribeAfterMs := Some(now + TRADES_RECONNECT_RESUBSCRIBE_DELAY_MS))
    else if t.resubscribeAfterMs.Some? then
      if now >= t.resubscribeAfterMs.value then Resubscribed(t, now) else t
    else if MayStart(t, now, tradesServerToken) then Started(t, now, uid)
    else t
  }

  /** The answer to an unsubscribe schedules the resubscribe of the same sequence only. */
  function UnsubscribeClosed(t: Trades, uid: nat, now: int): Trades {
    if t.pendingUnsubscribe.None? || t.pendingUnsubscribe.value.uid != uid then Later(t, now)
    else Later(t, now).(
      pendingUnsubscribe := None, resubscribeAfterMs := Some(now + TRADES_RECONNECT_RESUBSCRIBE_DELAY_MS))
  }

  function SubscribeAnswered(t: Trades, success: bool, now: int): Trades {
    Later(t, now).(lastCheckMs := if success then now else t.lastCheckMs, lastSubscribeRequestMs := NEVER_TIME_MS)
  }

  function Repaired(t: Trades, now: int): Trades {
    if !t.around.authorized || !t.around.domainReady || t.around.intent != Unsubscribed
       || Abs(now - t.lastCheckMs) < TRADES_RECONNECT_THROTTLE_MS
    then Later(t, now)
    else Later(t, now).(lastCheckMs := now, log := t.log + [Repair(now)])
  }

  // What every step keeps.

  ghost predicate Inv(t: Trades) {
    && LogOk(t.log) && !(t.pendingUnsubscribe.Some? && t.resubscribeAfterMs.Some?)
    && (t.pendingUnsubscribe.Some? ==>
          Latest(t.log) == Some(Unsubscribe(t.pendingUnsubscribe.value.uid, t.pendingUnsubscribe.value.sentMs))
          && t.pendingUnsubscribe.value.sentMs <= t.lastTick)
    && (t.resubscribeAfterMs.Some? ==>
          Latest(t.log).Some? && Latest(t.log).value.Unsubscribe?
          && t.resubscribeAfterMs.value - Latest(t.log).value.at >= TRADES_RECONNECT_RESUBSCRIBE_DELAY_MS)
    && (LatestStart(t.log).Some? ==>
          LatestStart(t.log).value <= t.lastCheckMs && LatestStart(t.log).value <= t.lastTick)
    && t.lastTick <= t.latest && t.lastCheckMs <= t.latest
  }

  lemma {:induction false} LogOkAppend(log: seq<Request>, r: Request)
    requires LogOk(log)
    requires r.Unsubscribe? && LatestStart(log).Some? ==> r.at - LatestStart(log).value >= TRADES_RECONNECT_THROTTLE_MS
    requires r.Resubscribe? ==>
      && Latest(log).Some? && Latest(log).value.Unsubscribe?
      && r.at - Latest(log).value.at >= TRADES_RECONNECT_RESUBSCRIBE_DELAY_MS
    ensures LogOk(log + [r])
  {
    Appended(log, r);
  }

  /**
   A tick. Handlers of the same loop iteration may have used later times, by less than the 5 seconds
   between two sequences.
   */
  lemma {:induction false} TickedKeeps(t: Trades, now: int, tradesServerToken: nat, uid: nat)
    requires Inv(t) && t.lastTick <= now && t.latest - now < TRADES_RECONNECT_THROTTLE_MS
    ensures Inv(Ticked(t, now, tradesServerToken, uid))
  {
    hide LogOk, Latest, LatestStart;
    var t1 := Later(t.(lastTick := now), now);
    if t1.resubscribeAfterMs.Some? && now >= t1.resubscribeAfterMs.value && t1.around.intent.Subscribed? {
      LogOkAppend(t.log, Resubscribe(t.around.intent.wantMm, now));
      Appended(t.log, Resubscribe(t.around.intent.wantMm, now));
    } else if t1.pendingUnsubscribe.None? && t1.resubscribeAfterMs.None? && MayStart(t1, now, tradesServerToken) {
      LogOkAppend(t.log, Unsubscribe(uid, now));
      Appended(t.log, Unsubscribe(uid, now));
    }
  }

  lemma {:induction false} AnswersKeep(t: Trades, uid: nat, success: bool, now: int)
    requires Inv(t) && t.lastTick <= now
    ensures Inv(UnsubscribeClosed(t, uid, now)) && Inv(SubscribeAnswered(t, success, now)) && Inv(Repaired(t, now))
  {
    hide LogOk, Latest, LatestStart;
    LogOkAppend(t.log, Repair(now));
    Appended(t.log, Repair(now));
  }

  // Whole runs.

  datatype Event =
    | TickAt(now: int, tradesServerToken: nat, uid: nat)
    | UnsubscribeAnswer(uid: nat, now: int)
    | SubscribeAnswer(success: bool, now: int)
    | LiveTrades(now: int)
    | Change(around: Surroundings, lastSubscribeRequestMs: int, lastStreamMs: int)

  function Step(t: Trades, e: Event): Trades {
    match e
    case TickAt(now, token, uid) => Ticked(t, now, token, uid)
    case UnsubscribeAnswer(uid, now) => UnsubscribeClosed(t, uid, now)
    case SubscribeAnswer(success, now) => SubscribeAnswered(t, success, now)
    case LiveTrades(now) => Repaired(t, now)
    case Change(around, requested, stream) =>
      t.(around := around, lastSubscribeRequestMs := requested, lastStreamMs := stream)
  }

  /** Ticks do not run backwards; handlers run after the tick before them, and less than 5 seconds ahead of the next. */
  predicate Legal(t: Trades, e: Event) {
    match e
    case TickAt(now, _, _) => t.lastTick <= now && t.latest - now < TRADES_RECONNECT_THROTTLE_MS
    case UnsubscribeAnswer(_, now) => t.lastTick <= now
    case SubscribeAnswer(_, now) => t.lastTick <= now
    case LiveTrades(now) => t.lastTick <= now
    case Change(_, _, _) => true
  }

  function Run(t: Trades, events: seq<Event>): Trades
    decreases |events|
  {
    if events == [] then t else Run(Step(t, events[0]), events[1..])
  }

  predicate LegalRun(t: Trades, events: seq<Event>)
    decreases |events|
  {
    events != [] ==> Legal(t, events[0]) && LegalRun(Step(t, events[0]), events[1..])
  }

  lemma {:induction false} StepKeeps(t: Trades, e: Event)
    requires Inv(t) && Legal(t, e)
    ensures Inv(Step(t, e))
  {
    hide LogOk, Latest, LatestStart, Ticked, UnsubscribeClosed, SubscribeAnswered, Repaired;
    match e
    case TickAt(now, token, uid) => TickedKeeps(t, now, token, uid);
    case UnsubscribeAnswer(uid, now) => AnswersKeep(t, uid, false, now);
    case SubscribeAnswer(success, now) => AnswersKeep(t, 0, success, now);
    case LiveTrades(now) => AnswersKeep(t, 0, false, now);
    case Change(_, _, _) =>
  }

  lemma {:induction false} RunKeeps(t: Trades, events: seq<Event>)
    requires Inv(t) && LegalRun(t, events)
    ensures Inv(Run(t, events))
    decreases |events|
  {
    hide Inv, Step, Legal;
    if events != [] {
      StepKeeps(t, events[0]);
      RunKeeps(Step(t, events[0]), events[1..]);
    }
  }

  /**
   Over every run, whatever the intent, the answers and the stream do: an unsubscribe pending and a
   resubscribe scheduled never stand together, and the requests keep their distances.
   */
  lemma {:induction false} ResubscribeSafety(events: seq<Event>)
    requires LegalRun(Start(), events)
    ensures
      var t := Run(Start(), events);
      LogOk(t.log) && !(t.pendingUnsubscribe.Some? && t.resubscribeAfterMs.Some?)
  {
    RunKeeps(Start(), events);
  }

  /** A request is added only by a tick, one at a time, and only while the stream is wanted. */
  lemma {:induction false} TickAdds(t: Trades, now: int, tradesServerToken: nat, uid: nat)
    ensures
      var log := Ticked(t, now, tradesServerToken, uid).log;
      || log == t.log
      || (t.around.intent.Subscribed? && t.resubscribeAfterMs.Some?
          && log == t.log + [Resubscribe(t.around.intent.wantMm, now)])
      || (t.around.intent.Subscribed? && t.resubscribeAfterMs.None? && log == t.log + [Unsubscribe(uid, now)])
  {
  }

  /** Only an unwanted stream is repaired, at most every 5 seconds. */
  lemma {:induction false} RepairAdds(t: Trades, now: int)
    ensures
      var t' := Repaired(t, now);
      || (t'.log == t.log && t'.lastCheckMs == t.lastCheckMs)
      || (t.around.intent.Unsubscribed? && t'.log == t.log + [Repair(now)]
          && Abs(now - t.lastCheckMs) >= TRADES_RECONNECT_THROTTLE_MS)
  {
  }

  // The object: the same steps, statement by statement on its fields.

  class Reconnect {
    var around: Surroundings
    var lastSubscribeRequestMs: int
    var lastCheckMs: int
    var lastStreamMs: int
    var pendingUnsubscribe: Option<PendingUnsubscribe>
    var resubscribeAfterMs: Option<int>
    /** Requests queued so far. */
    var log: seq<Request>
    ghost var lastTick: int
    ghost var latest: int

    ghost function State(): Trades
      reads this
    {
      Trades(around, lastSubscribeRequestMs, lastCheckMs, lastStreamMs, pendingUnsubscribe, resubscribeAfterMs, log,
             lastTick, latest)
    }

    constructor ()
      ensures State() == Start() && Inv(State())
    {
      around := Surroundings(false, false, Unspecified, 0);
      lastSubscribeRequestMs, lastCheckMs, lastStreamMs := NEVER_TIME_MS, NEVER_TIME_MS, NEVER_TIME_MS;
      pendingUnsubscribe, resubscribeAfterMs, log := None, None, [];
      lastTick, latest := 0, 0;
    }

    /** A new sequence supersedes whatever was scheduled. */
    method StartTradesReconnectSequence(now: int, uid: nat)
      modifies `lastCheckMs, `log, `pendingUnsubscribe, `resubscribeAfterMs
      ensures State() == if around.intent.Subscribed? then Started(old(State()), now, uid) else old(State())
      ensures around.intent.Subscribed? ==>
        && pendingUnsubscribe == Some(PendingUnsubscribe(uid, now)) && resubscribeAfterMs.None?
        && Latest(log) == Some(Unsubscribe(uid, now)) && LatestStart(log) == Some(now)
    {
      if !around.intent.Subscribed? {
        return;
      }
      Appended(log, Unsubscribe(uid, now));
      lastCheckMs := now;
      log := log + [Unsubscribe(uid, now)];
      pendingUnsubscribe := Some(PendingUnsubscribe(uid, now));
      resubscribeAfterMs := None;
    }

    /** Keeps the distances, queues at most one request, and that only for a stream that is wanted. */
    method TickTradesReconnectSequence(now: int, tradesServerToken: nat, uid: nat)
      modifies this
      ensures State() == Ticked(old(State()), now, tradesServerToken, uid)
      ensures Inv(old(State())) && old(lastTick) <= now && old(latest) - now < TRADES_RECONNECT_THROTTLE_MS ==>
        Inv(State()) && LogOk(log) && !(pendingUnsubscribe.Some? && resubscribeAfterMs.Some?)
      ensures log != old(log) ==> around.intent.Subscribed? && |log| == |old(log)| + 1 && old(log) <= log
    {
      hide Inv, LogOk, Latest, LatestStart, Sequenced;
      TickMeans(State(), now, tradesServerToken, uid);
      lastTick, latest := now, if latest < now then now else latest;
      RunSequence(now, tradesServerToken, uid);
    }

    method RunSequence(now: int, tradesServerToken: nat, uid: nat)
      modifies `lastCheckMs, `lastSubscribeRequestMs, `log, `pendingUnsubscribe, `resubscribeAfterMs
      ensures State() == Sequenced(old(State()), now, tradesServerToken, uid)
      ensures pendingUnsubscribe.Some? && resubscribeAfterMs.Some? ==> unchanged(this)
    {
      hide MayStart;
      SequenceMeans(State(), now, tradesServerToken, uid);
      if !around.domainReady {
        return;
      }
      if lastSubscribeRequestMs != NEVER_TIME_MS && Abs(now - lastSubscribeRequestMs) < DEFAULT_PENDING_TIMEOUT_MS {
        return;
      }
      if pendingUnsubscribe.Some? {
        if Abs(now - pendingUnsubscribe.value.sentMs) < DEFAULT_PENDING_TIMEOUT_MS {
          return;
        }
        pendingUnsubscribe := None;
        resubscribeAfterMs := Some(now + TRADES_RECONNECT_RESUBSCRIBE_DELAY_MS);
        return;
      }
      if resubscribeAfterMs.Some? {
        if now >= resubscribeAfterMs.value {
          SendResubscribe(now);
        }
        return;
      }
      var ready := SequenceNeeded(now, tradesServerToken);
      if ready {
        StartTradesReconnectSequence(now, uid);
      }
    }

    /** A resubscribe that is due ends its schedule, and is queued only if the stream is still wanted. */
    method SendResubscribe(now: int)
      modifies `resubscribeAfterMs, `log, `lastSubscribeRequestMs
      ensures State() == Resubscribed(old(State()), now)
      ensures resubscribeAfterMs.None? && (log != old(log) ==> around.intent.Subscribed?)
    {
      resubscribeAfterMs := None;
      if around.intent.Subscribed? {
        log := log + [Resubscribe(around.intent.wantMm, now)];
        lastSubscribeRequestMs := now;
      }
    }

    method SequenceNeeded(now: int, tradesServerToken: nat) returns (ready: bool)
      ensures ready <==> MayStart(State(), now, tradesServerToken)
    {
      if !around.intent.Subscribed? || around.serverToken == 0 {
        return false;
      }
      if around.serverToken == tradesServerToken {
        if lastStreamMs == NEVER_TIME_MS || Abs(now - lastStreamMs) < TRADES_STREAM_SILENCE_MS
          || Abs(now - lastCheckMs) < TRADES_STREAM_SILENCE_MS
        {
          return false;
        }
      }
      return Abs(now - lastCheckMs) >= TRADES_RECONNECT_THROTTLE_MS;
    }

    /** Only the answer to the unsubscribe that is waited for schedules the resubscribe, and ends the wait. */
    method CloseTradesUnsubscribeWait(uid: nat, now: int)
      modifies `latest, `pendingUnsubscribe, `resubscribeAfterMs
      ensures State() == UnsubscribeClosed(old(State()), uid, now)
      ensures Inv(old(State())) && lastTick <= now ==>
        Inv(State()) && !(pendingUnsubscribe.Some? && resubscribeAfterMs.Some?)
      ensures resubscribeAfterMs != old(resubscribeAfterMs) ==>
        old(pendingUnsubscribe).Some? && old(pendingUnsubscribe).value.uid == uid && pendingUnsubscribe.None?
    {
      hide LogOk, Latest, LatestStart;
      if Inv(State()) && lastTick <= now {
        AnswersKeep(State(), uid, false, now);
      }
      latest := if latest < now then now else latest;
      if pendingUnsubscribe.None? {
        return;
      }
      if pendingUnsubscribe.value.uid != uid {
        return;
      }
      pendingUnsubscribe := None;
      resubscribeAfterMs := Some(now + TRADES_RECONNECT_RESUBSCRIBE_DELAY_MS);
    }

    /** Repeats the unsubscribe of an unwanted stream, at most every 5 seconds. */
    method RepairUnwantedTradesStream(now: int)
      modifies `latest, `lastCheckMs, `log
      ensures State() == Repaired(old(State()), now)
      ensures Inv(old(State())) && lastTick <= now ==>
        Inv(State()) && !(pendingUnsubscribe.Some? && resubscribeAfterMs.Some?)
      ensures log != old(log) ==>
        && around.intent.Unsubscribed? && log == old(log) + [Repair(now)]
        && Abs(now - old(lastCheckMs)) >= TRADES_RECONNECT_THROTTLE_MS
    {
      hide LogOk, Latest, LatestStart;
      if Inv(State()) && lastTick <= now {
        AnswersKeep(State(), 0, false, now);
      }
      RepairAdds(State(), now);
      latest := if latest < now then now else latest;
      if !around.authorized || !around.domainReady {
        return;
      }
      if Abs(now - lastCheckMs) < TRADES_RECONNECT_THROTTLE_MS {
        return;
      }
      if around.intent != Unsubscribed {
        return;
      }
      lastCheckMs := now;
      log := log + [Repair(now)];
    }
  }

  lemma {:induction false} SequenceMeans(t: Trades, now: int, tradesServerToken: nat, uid: nat)
    ensures
      var t' := Sequenced(t, now, tradesServerToken, uid);
      && (MayStart(t, now, tradesServerToken) ==> t.around.intent.Subscribed?)
      && (t'.pendingUnsubscribe.Some? && t'.resubscribeAfterMs.Some? ==> t' == t)
  {
  }

  lemma {:induction false} TickMeans(t: Trades, now: int, tradesServerToken: nat, uid: nat)
    ensures
      var t' := Ticked(t, now, tradesServerToken, uid);
      && (Inv(t) && t.lastTick <= now && t.latest - now < TRADES_RECONNECT_THROTTLE_MS ==>
            Inv(t') && LogOk(t'.log) && !(t'.pendingUnsubscribe.Some? && t'.resubscribeAfterMs.Some?))
      && (t'.log != t.log ==> t.around.intent.Subscribed? && |t'.log| == |t.log| + 1 && t.log <= t'.log)
  {
    hide LogOk, Latest, LatestStart, Ticked;
    TickAdds(t, now, tradesServerToken, uid);
    if Inv(t) && t.lastTick <= now && t.latest - now < TRADES_RECONNECT_THROTTLE_MS {
      TickedKeeps(t, now, tradesServerToken, uid);
    }
  }
}
