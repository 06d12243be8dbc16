/** One sliced datagram awaiting acknowledgement (src/client/transport_state.rs). */
module SentDatagrams {
  import opened Bytes
  import opened Numbers
  import opened Flags

  /** Commands with the same key replace one another; kind 0 means no key. */
  datatype UniqueKey = UniqueKey(kind: nat, uid: nat) {
    predicate IsNone() {
      kind == 0
    }
  }

  /**
   `serial` is the unbounded count of datagrams created before this one; the wire carries it modulo 65536.
   `clocks` holds the time each block was last sent, 0 for never.
   */
  datatype Sent = Sent(
    serial: nat, slices: seq<seq<byte>>, clocks: seq<int>, flags: Flags256, sentCount: nat,
    lastChecked: int, retryCount: int, lastRetryInc: int, maxRetry: int, key: UniqueKey)
  {
    function Num(): nat {
      serial % 0x1_0000
    }

    predicate Shaped() {
      1 <= |slices| == |clocks| <= 256
    }
  }

  predicate AllShaped(list: seq<Sent>) {
    forall i :: 0 <= i < |list| ==> list[i].Shaped()
  }

  /** All of the first `n` blocks are flagged. */
  predicate Covers(flags: Flags256, n: nat)
    requires n <= 256
  {
    forall b :: 0 <= b < n ==> Has(flags, b)
  }

  /** The least clock among the first `n` blocks that are not acknowledged. */
  function MinClock(clocks: seq<int>, flags: Flags256, n: nat): (m: Option<int>)
    requires n <= |clocks| <= 256
    ensures m.None? <==> Covers(flags, n)
    ensures m.Some? ==> forall b :: 0 <= b < n && !Has(flags, b) ==> m.value <= clocks[b]
    ensures m.Some? ==> exists b :: 0 <= b < n && !Has(flags, b) && clocks[b] == m.value
  {
    if n == 0 then None
    else
      var m := MinClock(clocks, flags, n - 1);
      if Has(flags, n - 1) then m
      else if m.None? then assert !Has(flags, n - 1); Some(clocks[n - 1])
      else Some(Min(m.value, clocks[n - 1]))
  }

  /** The datagram's clock after a refresh; the fallback stands in when nothing is missing. */
  function Refreshed(s: Sent, fallback: int): (m: int)
    requires s.Shaped()
  {
    var m := MinClock(s.clocks, s.flags, |s.clocks|);
    if m.Some? then m.value else fallback
  }

  /** A block is missing, the clock is the least clock of the missing blocks, and the retry budget is kept. */
  ghost predicate Live(s: Sent): (live: bool)
    ensures live ==> s.Shaped() && !Covers(s.flags, |s.slices|)
  {
    && s.Shaped() && !Covers(s.flags, |s.slices|)
    && MinClock(s.clocks, s.flags, |s.clocks|) == Some(s.lastChecked)
    && s.retryCount <= Max(0, s.maxRetry)
    && forall b :: 0 <= b < |s.clocks| ==> s.clocks[b] >= 0
  }

  /** No block was sent later than `now`. */
  ghost predicate SentBy(s: Sent, now: int) {
    forall b :: 0 <= b < |s.clocks| ==> s.clocks[b] <= now
  }

  /** The fallback of a refresh matters exactly when no block is missing. */
  lemma {:induction false} FallbackUsedIff(s: Sent, x: int, y: int)
    requires s.Shaped() && x != y
    ensures Refreshed(s, x) == Refreshed(s, y) <==> !Covers(s.flags, |s.slices|)
  {
  }

  function NewSent(serial: nat, slices: seq<seq<byte>>, maxRetry: int, key: UniqueKey): (s: Sent) {
    Sent(serial, slices, seq(|slices|, i => 0), NoFlags(), 0, 0, 0, 0, maxRetry, key)
  }

  lemma {:induction false} NewSentLive(serial: nat, slices: seq<seq<byte>>, maxRetry: int, key: UniqueKey)
    requires 1 <= |slices| <= 256
    ensures Live(NewSent(serial, slices, maxRetry, key)) && SentBy(NewSent(serial, slices, maxRetry, key), 0)
  {
    hide Has, NoFlags;
    var s := NewSent(serial, slices, maxRetry, key);
    FullHas(0);
    assert !Has(s.flags, 0);
    assert MinClock(s.clocks, s.flags, |s.clocks|).Some?;
  }

  // Acknowledgements.

  /** Merging acknowledged blocks: nothing if none is new, removal if all are acknowledged now. */
  function Acked(s: Sent, flags: Flags256, now: int): (r: Option<Sent>)
    requires s.Shaped()
    ensures r.Some? ==> r.value.serial == s.serial && r.value.slices == s.slices && r.value.clocks == s.clocks
    ensures r.Some? ==> r.value.key == s.key && r.value.Shaped()
  {
    var merged := Union(s.flags, flags);
    var s' := s.(flags := merged, retryCount := 0);
    if merged == s.flags then Some(s)
    else if Covers(merged, |s.slices|) then None
    else Some(s'.(lastChecked := Refreshed(s', now)))
  }

  lemma {:induction false} AckedLive(s: Sent, flags: Flags256, now: int)
    requires Live(s)
    ensures Acked(s, flags, now).Some? ==> Live(Acked(s, flags, now).value)
    ensures Acked(s, flags, now).None? <==> Covers(Union(s.flags, flags), |s.slices|)
  {
    hide Has, Union;
  }

  /** The refresh after new acknowledgements never uses its fallback: where one would be used the datagram leaves. */
  lemma {:induction false} AckNeedsNoFallback(s: Sent, flags: Flags256, now: int, x: int)
    requires s.Shaped() && Acked(s, flags, now).Some? && Union(s.flags, flags) != s.flags
    ensures Acked(s, flags, now) == Acked(s, flags, x)
  {
    hide Has, Union;
    var s' := s.(flags := Union(s.flags, flags), retryCount := 0);
    if now != x {
      FallbackUsedIff(s', now, x);
    }
  }
}
