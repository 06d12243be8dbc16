/**
 Where the parts of the send phase meet: queues, slicing, the sending list, retries and the peer's window
 (src/client/protocol_send.rs).
 */
module SendPhase {
  import opened Bytes
  import opened Slicing
  import Q = SendQueue
  import P = Pipeline
  import S = SenderRuns
  import H = PendingHigh
  import N = MessageNumbers
  import W = ReplayWindow

  /** A queued command after compression, the size gate, encryption and slicing. */
  ghost predicate CutFrom(item: S.Item, q: Q.Queued, crypto: Option<P.Crypto>, actualPmtu: nat) {
    && item.key == q.key && item.maxRetry == q.maxRetries
    && (item.slices.Some? <==> P.Outbound(q.cmd, q.data, crypto, actualPmtu).Some?)
    && (item.slices.Some? ==>
          var (wireCmd, wireData) := P.Outbound(q.cmd, q.data, crypto, actualPmtu).value;
          exists num :: AreSlices(item.slices.value, [wireCmd] + wireData, P.Room(actualPmtu), num))
  }

  ghost predicate AllCut(items: seq<S.Item>, queue: seq<Q.Queued>, crypto: seq<Option<P.Crypto>>, actualPmtu: nat) {
    && |items| == |queue| == |crypto|
    && forall i :: 0 <= i < |items| ==> CutFrom(items[i], queue[i], crypto[i], actualPmtu) && (crypto[i].Some? ==>
      crypto[i].value.Valid())
  }

  /** What the queues hand over is a batch the sending list can take: one command per key, 1 to 256 slices each. */
  lemma {:induction false} QueueFeedsSender(pushed: seq<Q.Queued>, items: seq<S.Item>, crypto: seq<Option<P.Crypto>>,
      actualPmtu: nat)
    requires Q.OneQueue(pushed, Q.Sliced) && AllCut(items, Q.PushAll([], pushed), crypto, actualPmtu)
    ensures S.BatchOk(items)
  {
    hide P.Outbound, AreSlices, Q.PushAll;
    var queue := Q.PushAll([], pushed);
    Q.LastWriterWins(pushed, Q.Sliced);
    forall i | 0 <= i < |items| && items[i].slices.Some? ensures 1 <= |items[i].slices.value| <= 256 {
      assert CutFrom(items[i], queue[i], crypto[i], actualPmtu);
      CutCount(items[i], queue[i], crypto[i], actualPmtu);
    }
    forall i, j | 0 <= i < j < |items| && items[i].key == items[j].key ensures items[i].key.IsNone() {
      assert CutFrom(items[i], queue[i], crypto[i], actualPmtu) && CutFrom(items[j], queue[j], crypto[j], actualPmtu);
    }
  }

  lemma {:induction false} CutCount(item: S.Item, q: Q.Queued, crypto: Option<P.Crypto>, actualPmtu: nat)
    requires CutFrom(item, q, crypto, actualPmtu) && item.slices.Some? && (crypto.Some? ==> crypto.value.Valid())
    ensures 1 <= |item.slices.value| <= 256
  {
    hide P.Outbound, P.Crypto.Valid, BlockCount;
    P.FitsBlocks(q.cmd, q.data, crypto, actualPmtu);
    var (wireCmd, wireData) := P.Outbound(q.cmd, q.data, crypto, actualPmtu).value;
    var num :| AreSlices(item.slices.value, [wireCmd] + wireData, P.Room(actualPmtu), num);
  }

  /** A high-priority command is dropped as confirmed only if the peer accepted its message number. */
  lemma {:induction false} ConfirmedWasAccepted(pending: seq<H.Pending>, w: W.Window, accepted: set<nat>,
      confirmed: set<nat>, p: H.Pending)
    requires W.Remembers(w, accepted) && p in pending && p !in H.Confirm(pending, confirmed)
    requires forall n :: n in confirmed ==> W.Confirms(W.AckHalf(w).0, W.AckHalf(w).1, n)
    ensures p.msgNum in accepted
  {
    hide W.Remembers, W.AckHalf, W.Confirms;
    H.ConfirmThins(pending, confirmed);
    W.ReportExact(w, accepted, p.msgNum);
  }

  /** The message numbers of transmissions that reach the peer: any of them, in any order, any number of times. */
  function Arriving(log: seq<H.Tx>, arrivals: seq<nat>): seq<nat>
    requires forall i :: 0 <= i < |arrivals| ==> arrivals[i] < |log|
  {
    seq(|arrivals|, i requires 0 <= i < |arrivals| => log[arrivals[i]].msgNum)
  }

  /**
   Whatever the network does with the transmissions of a run: no number is accepted twice, every
   transmission of a command carries its number and its bytes, and where batches took free numbers, two
   transmissions under the same keys and number are the same command.
   */
  lemma {:induction false} ExecutedAtMostOnce(events: seq<H.Event>, now: int, arrivals: seq<nat>)
    requires H.LegalRun(events, now)
    requires forall i :: 0 <= i < |arrivals| ==> arrivals[i] < |H.Run(H.Start(), events).log|
    ensures W.Distinct(W.Accepted(W.Empty(), Arriving(H.Run(H.Start(), events).log, arrivals)))
    ensures
      var log := H.Run(H.Start(), events).log;
      forall i, j :: 0 <= i < |log| && 0 <= j < |log| && log[i].id == log[j].id ==> H.SameCommand(log[i], log[j])
    ensures N.FreeRun(H.Start(), events) ==>
      var log := H.Run(H.Start(), events).log;
      forall i, j :: 0 <= i < |log| && 0 <= j < |log| && N.SameNumber(log[i], log[j]) ==>
        log[i].id == log[j].id && H.SameCommand(log[i], log[j])
  {
    hide H.Run, H.Start, W.Accepted, W.Empty, N.FreeRun, H.LegalRun;
    var st := H.Run(H.Start(), events);
    W.AcceptedOnce(Arriving(st.log, arrivals));
    H.RetryAccounting(events, now);
    forall i, j | 0 <= i < |st.log| && 0 <= j < |st.log| && st.log[i].id == st.log[j].id
      ensures H.SameCommand(st.log[i], st.log[j])
    {
    }
    if N.FreeRun(H.Start(), events) {
      N.NumbersName(events, now);
    }
  }
}
