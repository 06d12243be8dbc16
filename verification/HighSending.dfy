/** The list of pending high-priority commands, changed in place (src/client/protocol_direct_send.rs). */
module HighSending {
  import opened Lists
  import opened KeyedLists
  import opened Pipeline
  import opened PendingHigh

  function ResentAll(ps: seq<Pending>, cur: int, epoch: nat): seq<Tx> {
    if ps == [] then [] else ResentAll(ps[..|ps| - 1], cur, epoch) + [Resent(ps[|ps| - 1], cur, epoch)]
  }

  /** The outcome of a retry pass when the commands in `done` have been looked at. */
  function Resumed(done: seq<Pending>, drop: seq<nat>, rest: seq<Pending>, log: seq<Tx>, cur: int, delay: int,
      epoch: nat)
    : (seq<Pending>, seq<Tx>)
  {
    var (kept, log') := RetryAll(rest, log, cur, delay, epoch);
    (Without(done, drop) + kept, log')
  }

  lemma {:induction false} ResumedStep(done: seq<Pending>, drop: seq<nat>, rest: seq<Pending>, log: seq<Tx>, cur: int,
      delay: int, epoch: nat)
    requires rest != [] && Below(drop, |done|) && Rising(drop)
    ensures Resumed(done, drop, rest, log, cur, delay, epoch)
      == Resumed(done + [Looked(rest[0], cur, delay)], if Exhausted(rest[0], cur, delay) then drop + [|done|] else drop,
                 rest[1..], LogAfter(log, rest[0], cur, delay, epoch), cur, delay, epoch)
  {
    hide Looked, Exhausted, LogAfter;
    var p := Looked(rest[0], cur, delay);
    var kept := RetryAll(rest[1..], LogAfter(log, rest[0], cur, delay, epoch), cur, delay, epoch).0;
    var w := Without(done, drop);
    if Exhausted(rest[0], cur, delay) {
      WithoutLast(done, p, drop);
      assert [] + kept == kept;
    } else {
      WithoutAppend(done, p, drop);
      assert (w + [p]) + kept == w + ([p] + kept);
    }
  }

  class HighSender {
    var pendingH: seq<Pending>
    var counter: nat
    /** Transmissions handed on for batching, in order. */
    var log: seq<Tx>
    /** Commands sent so far; the code keeps no such count. */
    var nextId: nat
    /** Keys derived so far. */
    var epoch: nat

    function Now(): State
      reads this
    {
      State(pendingH, counter, log, nextId, epoch)
    }

    constructor ()
      ensures Now() == Start() && forall now :: Inv(Now(), now)
    {
      pendingH, counter, log, nextId, epoch := [], INITIAL_CRYPTED_MSG_COUNTER, [], 0, 0;
      new;
      forall now ensures Inv(Now(), now) {
        StartInv(now);
      }
    }

    /** The counter starts again; what is pending stays, and so does the accounting. */
    method FullReset()
      modifies `counter
      ensures Now() == Step(old(Now()), CounterReset)
      ensures forall now :: Inv(old(Now()), now) ==> Inv(Now(), now)
    {
      counter := INITIAL_CRYPTED_MSG_COUNTER;
    }

    /** A handshake begins: nothing sent before is retried, and what was sent stays accounted for. */
    method ClearOutboundSessionData()
      modifies `pendingH, `counter
      ensures Now() == Step(old(Now()), OutboundCleared)
      ensures forall now :: Inv(old(Now()), now) ==> Inv(Now(), now)
    {
      pendingH := [];
      counter := INITIAL_CRYPTED_MSG_COUNTER;
    }

    method UseNewKeys()
      modifies `epoch
      ensures Now() == Step(old(Now()), Rekeyed)
      ensures forall now :: Inv(old(Now()), now) ==> Inv(Now(), now)
    {
      epoch := epoch + 1;
    }

    method SendHItem(x: Command, cur: int)
      modifies this
      ensures Now() == SendNew(old(Now()), x, cur)
    {
      hide MaybeCompress;
      var (cmd, data) := MaybeCompress(x.cmd, x.data);
      var retryLeft := InitialRetryLeft(x.maxRetries);
      counter := counter + 1;
      var msgNum := counter;
      if epoch == 0 {
        return;
      }
      log := log + [Tx(nextId, epoch, msgNum, cmd, data, retryLeft > 0, x.maxRetries, cur)];
      if retryLeft > 0 {
        pendingH := pendingH + [Pending(nextId, cmd, data, retryLeft, x.maxRetries, msgNum, cur, x.key)];
      } else {
        assert pendingH == pendingH + [];
      }
      nextId := nextId + 1;
    }

    method ApplyUKeyCleanup(xs: seq<Command>)
      modifies `pendingH
      ensures pendingH == CleanKeys(old(pendingH), xs)
    {
      var i := 0;
      while i < |xs|
        invariant 0 <= i <= |xs| && CleanKeys(pendingH, xs[i..]) == CleanKeys(old(pendingH), xs)
      {
        assert xs[i..][1..] == xs[i + 1..];
        if !xs[i].key.IsNone() {
          pendingH := RemoveKey(pendingH, KeyOf, xs[i].key);
        }
        i := i + 1;
      }
    }

    /** The high-priority commands of a tick: a pending command gives way to a newer one with its key. */
    method SendHigh(xs: seq<Command>, cur: int)
      modifies this
      ensures Now() == Step(old(Now()), Batch(xs, cur))
      ensures forall now :: Inv(old(Now()), now) && Legal(Batch(xs, cur), now) ==> Inv(Now(), cur)
    {
      hide Inv, CleanKeys, SendNew, SendAll;
      ghost var st := Now();
      forall now | Inv(st, now) && Legal(Batch(xs, cur), now) ensures Inv(Step(st, Batch(xs, cur)), cur) {
        StepKeeps(st, Batch(xs, cur), now);
      }
      ApplyUKeyCleanup(xs);
      assert xs[0..] == xs;
      for i := 0 to |xs|
        invariant SendAll(Now(), xs[i..], cur) == SendAll(Cleaned(st, xs), xs, cur)
      {
        SendAllFirst(Now(), xs, i, cur);
        SendHItem(xs[i], cur);
      }
      SendNothing(Now(), xs[|xs|..], cur);
    }

    /** Looks at every pending command, drops exhausted ones last first, then sends the due ones. */
    method RetryPendingH(cur: int, rtt: real)
      modifies `pendingH, `log
      ensures Now() == Step(old(Now()), Retry(cur, rtt))
    {
      hide Resent, PathDelay, RetryAll, Due, ResentAll, Without;
      var delay := PathDelay(rtt);
      var resend := Due(pendingH, cur, delay);
      var list, drop := Look(pendingH, log, cur, delay, epoch);
      pendingH := TakeOut(list, drop);
      if epoch > 0 {
        log := Resend(log, resend, cur, epoch);
      }
    }

    method ApplyRegularHlAck(confirmed: set<nat>)
      modifies `pendingH
      ensures pendingH == Confirm(old(pendingH), confirmed)
    {
      hide Confirm;
      ConfirmNone(confirmed);
      assert pendingH[0..] == pendingH;
      var kept: seq<Pending> := [];
      for i := 0 to |pendingH|
        invariant pendingH == old(pendingH) && kept + Confirm(pendingH[i..], confirmed) == Confirm(pendingH, confirmed)
      {
        ConfirmStep(kept, pendingH, i, confirmed);
        if pendingH[i].msgNum !in confirmed {
          kept := kept + [pendingH[i]];
        }
      }
      assert pendingH[|pendingH|..] == [] && kept + [] == kept;
      pendingH := kept;
    }
  }

  lemma {:induction false} SendAllFirst(st: State, xs: seq<Command>, i: nat, cur: int)
    requires i < |xs|
    ensures SendAll(st, xs[i..], cur) == SendAll(SendNew(st, xs[i], cur), xs[i + 1..], cur)
  {
    hide SendNew;
    assert xs[i..][0] == xs[i] && xs[i..][1..] == xs[i + 1..];
  }

  lemma {:induction false} SendNothing(st: State, xs: seq<Command>, cur: int)
    requires xs == []
    ensures SendAll(st, xs, cur) == st
  {
  }

  lemma {:induction false} ConfirmNone(confirmed: set<nat>)
    ensures Confirm([], confirmed) == []
  {
  }

  lemma {:induction false} ConfirmStep(kept: seq<Pending>, pending: seq<Pending>, i: nat, confirmed: set<nat>)
    requires i < |pending|
    ensures kept + Confirm(pending[i..], confirmed)
         == (if pending[i].msgNum in confirmed then kept else kept + [pending[i]])
          + Confirm(pending[i + 1..], confirmed)
  {
    assert pending[i..][1..] == pending[i + 1..];
    assert [] + Confirm(pending[i + 1..], confirmed) == Confirm(pending[i + 1..], confirmed);
    assert kept + ([pending[i]] + Confirm(pending[i + 1..], confirmed))
      == (kept + [pending[i]]) + Confirm(pending[i + 1..], confirmed);
  }

  function Due(pending: seq<Pending>, cur: int, delay: int): seq<Pending> {
    if pending == [] then []
    else (if RetryDue(pending[0], cur, delay) then [pending[0]] else []) + Due(pending[1..], cur, delay)
  }

  lemma {:induction false} ResentAllSum(a: seq<Pending>, b: seq<Pending>, cur: int, epoch: nat)
    ensures ResentAll(a + b, cur, epoch) == ResentAll(a, cur, epoch) + ResentAll(b, cur, epoch)
  {
    hide Resent;
    if b == [] {
      assert a + b == a && ResentAll(a, cur, epoch) + [] == ResentAll(a, cur, epoch);
    } else {
      var front, last := b[..|b| - 1], b[|b| - 1];
      assert (a + b)[..|a + b| - 1] == a + front;
      ResentAllSum(a, front, cur, epoch);
    }
  }

  /** The log grows by the due commands in order. */
  lemma {:induction false} RetryLog(pending: seq<Pending>, log: seq<Tx>, cur: int, delay: int, epoch: nat)
    ensures RetryAll(pending, log, cur, delay, epoch).1
      == if epoch > 0 then log + ResentAll(Due(pending, cur, delay), cur, epoch) else log
    decreases |pending|
  {
    hide RetryAll, ResentAll, Due, LogAfter;
    if pending == [] {
      RetryNone(log, cur, delay, epoch);
      assert log + [] == log;
    } else {
      RetryFirst(pending, log, cur, delay, epoch);
      RetryLog(pending[1..], LogAfter(log, pending[0], cur, delay, epoch), cur, delay, epoch);
      LogFirst(pending[0], Due(pending[1..], cur, delay), log, cur, delay, epoch);
    }
  }

  lemma {:induction false} LogFirst(p: Pending, due: seq<Pending>, log: seq<Tx>, cur: int, delay: int, epoch: nat)
    ensures epoch == 0 ==> LogAfter(log, p, cur, delay, epoch) == log
    ensures epoch > 0 ==>
      LogAfter(log, p, cur, delay, epoch) + ResentAll(due, cur, epoch)
        == log + ResentAll(if RetryDue(p, cur, delay) then [p] + due else due, cur, epoch)
  {
    hide ResentAll, Resent, RetryDue;
    ResentAllSum([p], due, cur, epoch);
    ResentOne(p, cur, epoch);
    var tx, tail := Resent(p, cur, epoch), ResentAll(due, cur, epoch);
    assert (log + [tx]) + tail == log + ([tx] + tail);
  }

  lemma {:induction false} RetryNone(log: seq<Tx>, cur: int, delay: int, epoch: nat)
    ensures RetryAll([], log, cur, delay, epoch).1 == log && ResentAll(Due([], cur, delay), cur, epoch) == []
  {
  }

  lemma {:induction false} RetryFirst(pending: seq<Pending>, log: seq<Tx>, cur: int, delay: int, epoch: nat)
    requires pending != []
    ensures RetryAll(pending, log, cur, delay, epoch).1
      == RetryAll(pending[1..], LogAfter(log, pending[0], cur, delay, epoch), cur, delay, epoch).1
    ensures Due(pending, cur, delay)
      == if RetryDue(pending[0], cur, delay) then [pending[0]] + Due(pending[1..], cur, delay)
         else Due(pending[1..], cur, delay)
  {
    hide LogAfter, RetryDue;
    assert [] + Due(pending[1..], cur, delay) == Due(pending[1..], cur, delay);
  }

  lemma {:induction false} ResentOne(p: Pending, cur: int, epoch: nat)
    ensures ResentAll([p], cur, epoch) == [Resent(p, cur, epoch)]
  {
    hide Resent;
    assert [p][..0] == [] && ResentAll([], cur, epoch) == [];
  }

  method Resend(log: seq<Tx>, resend: seq<Pending>, cur: int, epoch: nat) returns (r: seq<Tx>)
    ensures r == log + ResentAll(resend, cur, epoch)
  {
    hide Resent;
    r := log;
    var i := 0;
    while i < |resend|
      invariant 0 <= i <= |resend| && r == log + ResentAll(resend[..i], cur, epoch)
    {
      assert resend[..i + 1][..i] == resend[..i];
      r := r + [Resent(resend[i], cur, epoch)];
      i := i + 1;
    }
    assert resend[..i] == resend;
  }

  /** Marks the due commands and lists the exhausted ones. */
  method Look(pending: seq<Pending>, ghost log: seq<Tx>, cur: int, delay: int, epoch: nat)
    returns (list: seq<Pending>, drop: seq<nat>)
    ensures Below(drop, |list|) && Rising(drop)
    ensures RetryAll(pending, log, cur, delay, epoch)
      == (Without(list, drop), if epoch > 0 then log + ResentAll(Due(pending, cur, delay), cur, epoch) else log)
  {
    hide RetryAll, Without, Resumed, LogAfter, ResentAll, Due;
    list, drop := pending, [];
    ghost var log1 := log;
    var i := 0;
    ResumedStart(pending, log, cur, delay, epoch);
    while i < |list|
      invariant 0 <= i <= |list| == |pending| && list[i..] == pending[i..] && Below(drop, i) && Rising(drop)
      invariant Resumed(list[..i], drop, pending[i..], log1, cur, delay, epoch)
        == RetryAll(pending, log, cur, delay, epoch)
    {
      ResumedStep(list[..i], drop, pending[i..], log1, cur, delay, epoch);
      assert list[i] == list[i..][0] == pending[i..][0] && pending[i..][1..] == pending[i + 1..];
      log1 := LogAfter(log1, list[i], cur, delay, epoch);
      var p := list[i];
      if RetryDue(p, cur, delay) {
        p := p.(lastSentAt := cur, retryLeft := p.retryLeft - 1);
        if p.retryLeft <= 0 {
          drop := drop + [i];
        }
      }
      assert p == Looked(list[i], cur, delay);
      assert list[i := p][..i + 1] == list[..i] + [p] && list[i := p][i + 1..] == list[i..][1..];
      list := list[i := p];
      i := i + 1;
    }
    assert list[..i] == list && pending[i..] == [];
    RetryLog(pending, log, cur, delay, epoch);
    ResumedEnd(list, drop, log1, cur, delay, epoch);
  }

  lemma {:induction false} ResumedStart(pending: seq<Pending>, log: seq<Tx>, cur: int, delay: int, epoch: nat)
    ensures Resumed(pending[..0], [], pending[0..], log, cur, delay, epoch)
      == RetryAll(pending, log, cur, delay, epoch)
  {
    hide RetryAll;
    var kept := RetryAll(pending, log, cur, delay, epoch).0;
    assert pending[0..] == pending && pending[..0] == [] && [] + kept == kept;
  }

  lemma {:induction false} ResumedEnd(list: seq<Pending>, drop: seq<nat>, log: seq<Tx>, cur: int, delay: int,
      epoch: nat)
    ensures Resumed(list, drop, [], log, cur, delay, epoch) == (Without(list, drop), log)
  {
    assert Without(list, drop) + [] == Without(list, drop);
  }
}
