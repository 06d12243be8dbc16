/**
 The list of sliced datagrams awaiting acknowledgement, over whole runs: batches of new commands,
 acknowledgements, retry ticks and rate reports (src/client/protocol_sliced_send.rs,
 src/client/protocol_helpers.rs, src/client/socket_lifecycle.rs).
 */
module SlicedSender {
  import opened Bytes
  import opened Numbers
  import opened SentDatagrams
  import opened KeyedLists
  import opened AckConfluence
  import opened SlicedRetry

  // Order and keys.

  /** Fewer blocks first; among equals, first come first. No datagram is listed twice. */
  predicate Before(a: Sent, b: Sent) {
    if |a.slices| == |b.slices| then a.serial < b.serial else |a.slices| < |b.slices| && a.serial != b.serial
  }

  ghost predicate Ordered(list: seq<Sent>) {
    forall i, j :: 0 <= i < j < |list| ==> Before(list[i], list[j])
  }

  function KeyOf(s: Sent): UniqueKey {
    s.key
  }

  /** What stays of a datagram while its clocks, flags and counters change. */
  predicate Same(a: Sent, b: Sent) {
    a.serial == b.serial && a.slices == b.slices && a.key == b.key
  }

  predicate OrderedApart(a: Sent, b: Sent) {
    Before(a, b) && (a.key == b.key ==> a.key.IsNone())
  }

  lemma {:induction false} OrderedPairs(list: seq<Sent>)
    ensures Pairwise(list, OrderedApart) <==> Ordered(list) && KeysUnique(list, KeyOf)
  {
    if Pairwise(list, OrderedApart) {
      assert forall i, j :: 0 <= i < j < |list| ==> OrderedApart(list[i], list[j]);
    }
  }

  /** What thinning keeps. */
  lemma {:induction false} SendingThinned(part: seq<Sent>, list: seq<Sent>)
    requires Thinned(part, list, Same) && Ordered(list) && KeysUnique(list, KeyOf)
    ensures Ordered(part) && KeysUnique(part, KeyOf)
  {
    OrderedPairs(list);
    OrderedPairs(part);
    ThinnedKeeps(part, list, Same, OrderedApart);
  }

  lemma {:induction false} PassThins(list: seq<Sent>, cur: int, delay: int, bytes: nat, limit: nat, oldest: int)
    requires AllShaped(list)
    ensures Thinned(RetryPass(list, cur, delay, bytes, limit, oldest).list, list, Same)
  {
    hide Visit;
    if list != [] {
      var v := Visit(list[0], cur, delay, bytes, limit);
      var oldest' := if v.examined then Min(oldest, v.s.lastChecked) else oldest;
      PassThins(list[1..], cur, delay, v.bytes, limit, oldest');
      var rest := RetryPass(list[1..], cur, delay, v.bytes, limit, oldest').list;
      var all := RetryPass(list, cur, delay, bytes, limit, oldest).list;
      if GivenUp(v) {
        assert all == rest;
      } else {
        assert all[1..] == rest;
      }
    }
  }

  lemma {:induction false} AckThins(list: seq<Sent>, ack: Ack, now: int)
    requires AllShaped(list)
    ensures Thinned(ApplyAck(list, ack, now), list, Same)
  {
    hide Acked;
    var i := Find(list, ack.num);
    if i == |list| {
      ThinnedSelf(list, Same);
    } else {
      var s := Acked(list[i], ack.flags, now);
      if s.Some? {
        ThinnedChange(list, i, s.value, Same);
      } else {
        ThinnedDrop(list, i, Same);
      }
    }
  }

  // Inserting.

  /** The place before the first datagram with more blocks. */
  function Place(list: seq<Sent>, blocks: nat): (i: nat)
    ensures i <= |list| && (i < |list| ==> |list[i].slices| > blocks)
    ensures forall j :: 0 <= j < i ==> |list[j].slices| <= blocks
  {
    if list == [] || |list[0].slices| > blocks then 0
    else
      assert forall j :: 0 < j < |list| ==> list[j] == list[1..][j - 1];
      1 + Place(list[1..], blocks)
  }

  function Insert(list: seq<Sent>, s: Sent): seq<Sent> {
    var i := Place(list, |s.slices|);
    list[..i] + [s] + list[i..]
  }

  lemma {:induction false} InsertKeeps(list: seq<Sent>, s: Sent)
    requires Ordered(list) && KeysUnique(list, KeyOf)
    requires forall i :: 0 <= i < |list| ==> list[i].serial < s.serial
    requires s.key.IsNone() || !HasKey(list, KeyOf, s.key)
    ensures Ordered(Insert(list, s)) && KeysUnique(Insert(list, s), KeyOf)
  {
    var p := Place(list, |s.slices|);
    var r := Insert(list, s);
    forall j | 0 <= j < |list|
      ensures if j < p then Before(list[j], s) else Before(s, list[j])
      ensures list[j].key == s.key ==> s.key.IsNone()
    {
      if j > p {
        assert Before(list[p], list[j]);
      }
    }
    forall i, j | 0 <= i < j < |r|
      ensures Before(r[i], r[j]) && (r[i].key == r[j].key ==> r[i].key.IsNone())
    {
      var i' := if i < p then i else i - 1;
      var j' := if j < p then j else j - 1;
      if i != p && j != p {
        assert r[i] == list[i'] && r[j] == list[j'];
      }
    }
  }
}
