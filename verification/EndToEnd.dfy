/** Sender and receiver together: what an acknowledgement is worth. */
module EndToEnd {
  import opened Bytes
  import opened Flags
  import opened Reassembly
  import S = SentDatagrams
  import A = AckConfluence
  import opened SlicedReceiving
  import opened ExactlyOnce

  /** Each acknowledgement for `c` was sent in reply to one of its blocks during the run. */
  ghost predicate RepliesOf(acks: seq<A.Ack>, c: Sliced, run: seq<Entry>) {
    forall i :: 0 <= i < |acks| && acks[i].num == c.num ==> Answered(acks[i], c, run)
  }

  ghost predicate Answered(ack: A.Ack, c: Sliced, run: seq<Entry>) {
    exists j :: 0 <= j < |run| && c.BlockIn(run[j].event) != {} && run[j].reply.Some? && run[j].reply.value.ack
      == ack.flags
  }

  lemma {:induction false} UnionForHas(acks: seq<A.Ack>, num: nat, b: nat) returns (i: nat)
    requires b < 256 && Has(A.UnionFor(acks, num), b)
    ensures i < |acks| && acks[i].num == num && Has(acks[i].flags, b)
  {
    hide Has, Union, NoFlags;
    if acks == [] {
      FullHas(b);
      assert false;
    } else if acks[0].num == num {
      UnionHas(acks[0].flags, A.UnionFor(acks[1..], num), b);
      if Has(acks[0].flags, b) {
        i := 0;
      } else {
        var k := UnionForHas(acks[1..], num, b);
        i := k + 1;
      }
    } else {
      var k := UnionForHas(acks[1..], num, b);
      i := k + 1;
    }
  }

  lemma {:induction false} BlocksInPrefix(c: Sliced, run: seq<Entry>, n: nat)
    requires n <= |run|
    ensures c.BlocksIn(run[..n]) <= c.BlocksIn(run)
  {
    if n > 0 {
      BlocksInPrefix(c, run[1..], n - 1);
      assert run[..n][1..] == run[1..][..n - 1];
    }
  }

  /**
   If the acknowledgements collected by the sender cover all blocks of a datagram, so that it leaves the
   sending list, then the receiver has handed the command on, once and unchanged, if it could open the
   number, and never otherwise.
   */
  lemma {:induction false} CoveredMeansDelivered(s: S.Sent, acks: seq<A.Ack>, r: Receiver, run: seq<Entry>, c: Sliced)
    requires c.Valid() && Inv(r) && run != [] && IsRun(r, run) && Startable(r, run[0].event.now, c.num)
    requires c.BlockIn(run[0].event) != {} && Within(c, run, Base(r, run[0].event.now, c.num))
    requires s.Num() == c.num && |s.slices| == c.Count() && s.flags == NoFlags()
    requires RepliesOf(acks, c, run) && S.Covers(Union(s.flags, A.UnionFor(acks, s.Num())), |s.slices|)
    ensures c.Deliveries(run) ==
      if Opens(r, run[0].event.now, c.num) then [Delivery(c.num, c.cmd, c.data)] else []
  {
    hide Has, Union, NoFlags, Opens, Startable, Step, Sliced.BlockIn, Sliced.Genuine, Sliced.Deliveries,
        Sliced.BlocksIn, A.UnionFor;
    ExactlyOnceDelivery(r, run, c);
    if Opens(r, run[0].event.now, c.num) {
      OpensBase(r, run[0].event.now, c.num);
      forall b | 0 <= b < c.Count() ensures b in c.BlocksIn(run) {
        AcknowledgedCame(s, acks, r, run, c, b);
      }
    }
  }

  /** Where the number could be opened, a block the sender has seen acknowledged did arrive. */
  lemma {:induction false} AcknowledgedCame(s: S.Sent, acks: seq<A.Ack>, r: Receiver, run: seq<Entry>, c: Sliced,
      b: nat)
    requires c.Valid() && Inv(r) && run != [] && IsRun(r, run) && Startable(r, run[0].event.now, c.num)
    requires c.BlockIn(run[0].event) != {} && Within(c, run, run[0].event.now) && Opens(r, run[0].event.now, c.num)
    requires s.flags == NoFlags() && RepliesOf(acks, c, run) && b < c.Count()
    requires Has(Union(s.flags, A.UnionFor(acks, c.num)), b)
    ensures b in c.BlocksIn(run)
  {
    hide Has, Union, NoFlags, Opens, Startable, Step, Sliced.BlockIn, Sliced.Genuine, Sliced.BlocksIn, A.UnionFor;
    UnionHas(s.flags, A.UnionFor(acks, c.num), b);
    FullHas(b);
    var i := UnionForHas(acks, c.num, b);
    assert Answered(acks[i], c, run);
    var j :| 0 <= j < |run| && c.BlockIn(run[j].event) != {} && run[j].reply.Some? && run[j].reply.value.ack
      == acks[i].flags;
    AcknowledgementsExact(r, run, c, j);
    BlocksInPrefix(c, run, j + 1);
  }

  /** Both outcomes occur: a command of one block, sent to a new receiver, is covered and delivered. */
  lemma {:induction false} CoveredAndDelivered()
    returns (s: S.Sent, acks: seq<A.Ack>, run: seq<Entry>, c: Sliced)
    ensures c.Valid() && run != [] && IsRun(Initial(), run) && c.BlockIn(run[0].event) != {}
    ensures Startable(Initial(), run[0].event.now, c.num) && Within(c, run, Base(Initial(), run[0].event.now, c.num))
    ensures s.Num() == c.num && |s.slices| == c.Count() && s.flags == NoFlags()
    ensures RepliesOf(acks, c, run) && S.Covers(Union(s.flags, A.UnionFor(acks, s.Num())), |s.slices|)
    ensures c.Deliveries(run) == [Delivery(c.num, c.cmd, c.data)]
  {
    hide Has, Union, NoFlags, Step, Sliced.Genuine, Sliced.BlockIn, Sliced.Deliveries, Sliced.DeliveryIn, A.UnionFor,
        S.Covers, S.Sent.Num, Collecting, Closed;
    c := Sliced(5, 1, [], 10);
    var e := PlainStep(Initial(), c, 0, 10);
    run := [e];
    assert run[1..] == [] && IsRun(Initial(), run);
    OpenStep(Initial(), e, c);
    acks, s := OneAck(c, e.reply.value.ack);
    assert Answered(acks[0], c, run);
    CoveredMeansDelivered(s, acks, Initial(), run, c);
  }

  /** A sent command of one block, and an acknowledgement of that block. */
  lemma {:induction false} OneAck(c: Sliced, ack: Flags256) returns (acks: seq<A.Ack>, s: S.Sent)
    requires c.Valid() && Has(ack, 0)
    ensures acks == [A.Ack(c.num, ack)] && s.Num() == c.num && |s.slices| == 1 && s.flags == NoFlags()
    ensures S.Covers(Union(s.flags, A.UnionFor(acks, s.Num())), |s.slices|)
  {
    hide Has, Union, NoFlags;
    acks := [A.Ack(c.num, ack)];
    s := S.Sent(c.num, [[]], [0], NoFlags(), 0, 0, 0, 0, 0, S.UniqueKey(0, 0));
    assert acks[1..] == [] && A.UnionFor(acks, c.num) == Union(ack, NoFlags());
    UnionHas(ack, NoFlags(), 0);
    UnionHas(s.flags, A.UnionFor(acks, c.num), 0);
  }

  /** The command shut out by a leftover is covered too: the sender is done with it, and it is lost. */
  lemma {:induction false} CoveredAndLost()
    returns (s: S.Sent, acks: seq<A.Ack>, run: seq<Entry>, c: Sliced)
    ensures c.Valid() && run != [] && IsRun(Initial(), run)
    ensures s.Num() == c.num && |s.slices| == c.Count() && s.flags == NoFlags()
    ensures RepliesOf(acks, c, run) && S.Covers(Union(s.flags, A.UnionFor(acks, s.Num())), |s.slices|)
    ensures c.Deliveries(run) == []
  {
    hide Handled, Has, Union, NoFlags, Step, AllFlags, Sliced.Deliveries, Sliced.BlockIn;
    run, c := LeftoverShutsOut();
    FullHas(0);
    acks, s := OneAck(c, run[1].reply.value.ack);
    assert c.BlockIn(run[1].event) != {};
    assert Answered(acks[0], c, run);
  }
}
