/**
 Applying acknowledgements to the list of sent datagrams: the outcome depends only on which
 acknowledgements came, not on their order or repetition (src/client/protocol_helpers.rs).
 */
module AckConfluence {
  import opened Bytes
  import opened Flags
  import opened SentDatagrams

  datatype Ack = Ack(num: nat, flags: Flags256)

  ghost predicate AllLive(list: seq<Sent>) {
    forall i :: 0 <= i < |list| ==> Live(list[i])
  }

  ghost predicate DistinctNums(list: seq<Sent>) {
    forall i, j :: 0 <= i < j < |list| ==> list[i].Num() != list[j].Num()
  }

  /** The first datagram with this number, or the length of the list. */
  function Find(list: seq<Sent>, num: nat): (i: nat)
    ensures i <= |list|
    ensures i < |list| ==> list[i].Num() == num
    ensures forall j :: 0 <= j < i ==> list[j].Num() != num
  {
    if list == [] || list[0].Num() == num then 0
    else
      assert forall j :: 0 < j < |list| ==> list[j] == list[1..][j - 1];
      1 + Find(list[1..], num)
  }

  function ApplyAck(list: seq<Sent>, ack: Ack, now: int): (r: seq<Sent>)
    requires AllShaped(list)
    ensures AllShaped(r)
  {
    var i := Find(list, ack.num);
    if i == |list| then list
    else
      var s := Acked(list[i], ack.flags, now);
      if s.None? then list[..i] + list[i + 1..] else list[i := s.value]
  }

  lemma {:induction false} ApplyAckLive(list: seq<Sent>, ack: Ack, now: int)
    requires AllLive(list)
    ensures AllLive(ApplyAck(list, ack, now))
  {
    hide Live, Acked;
    var i := Find(list, ack.num);
    if i < |list| {
      assert Live(list[i]);
      AckedLive(list[i], ack.flags, now);
    }
  }

  function ApplyAcks(list: seq<Sent>, acks: seq<Ack>, now: int): seq<Sent>
    requires AllShaped(list)
    decreases |acks|
  {
    if acks == [] then list else ApplyAcks(ApplyAck(list, acks[0], now), acks[1..], now)
  }

  // The reference: each datagram on its own, once, with everything that was acknowledged for it.

  function UnionFor(acks: seq<Ack>, num: nat): Flags256 {
    if acks == [] then NoFlags()
    else if acks[0].num == num then Union(acks[0].flags, UnionFor(acks[1..], num))
    else UnionFor(acks[1..], num)
  }

  function Settled(list: seq<Sent>, acks: seq<Ack>, now: int): seq<Sent>
    requires AllShaped(list)
  {
    if list == [] then []
    else
      var s := Acked(list[0], UnionFor(acks, list[0].Num()), now);
      (if s.None? then [] else [s.value]) + Settled(list[1..], acks, now)
  }

  /** Two merges in a row are one merge of the union. */
  lemma {:induction false} AckedTwice(s: Sent, f: Flags256, g: Flags256, now: int)
    requires Live(s)
    ensures Acked(s, Union(f, g), now) ==
      if Acked(s, f, now).None? then None else Acked(Acked(s, f, now).value, g, now)
  {
    hide Has, Union;
    UnionAlgebra(s.flags, f, g);
    UnionAlgebra(f, g, g);
    UnionAlgebra(s.flags, f, f);
    CoversGrows(Union(s.flags, f), g, |s.slices|);
    AckedLive(s, f, now);
    AbsorbedUnion(s.flags, f, g);
  }

  /** If merging both changes nothing, neither does merging one. */
  lemma {:induction false} AbsorbedUnion(s: Flags256, f: Flags256, g: Flags256)
    ensures Union(Union(s, f), g) == s ==> Union(s, f) == s
    ensures Union(s, Union(f, g)) == Union(Union(s, f), g)
  {
    UnionAlgebra(s, f, g);
    forall i | 0 <= i < 32 ensures (s[i] | f[i]) | g[i] == s[i] ==> s[i] | f[i] == s[i] {
      AbsorbedOr(s[i], f[i], g[i]);
    }
    if Union(Union(s, f), g) == s {
      forall i | 0 <= i < 32 ensures s[i] | f[i] == s[i] {
        assert s[i] == Union(Union(s, f), g)[i] == (s[i] | f[i]) | g[i];
      }
    }
  }

  lemma {:induction false} AbsorbedOr(x: bv8, y: bv8, z: bv8)
    ensures (x | y) | z == x ==> x | y == x
  {
  }

  lemma {:induction false} CoversGrows(f: Flags256, g: Flags256, n: nat)
    requires n <= 256
    ensures Covers(f, n) ==> Covers(Union(f, g), n)
  {
    hide Has, Union;
    forall b | 0 <= b < n && Covers(f, n) ensures Has(Union(f, g), b) {
      UnionHas(f, g, b);
    }
  }

  lemma {:induction false} AckedNothing(s: Sent, now: int)
    requires s.Shaped()
    ensures Acked(s, NoFlags(), now) == Some(s)
  {
    hide Union, NoFlags;
    UnionAlgebra(s.flags, s.flags, s.flags);
  }

  lemma {:induction false} SettledByNone(list: seq<Sent>, now: int)
    requires AllLive(list)
    ensures Settled(list, [], now) == list
  {
    hide Acked, Live;
    if list != [] {
      AckedNothing(list[0], now);
      SettledByNone(list[1..], now);
    }
  }

  lemma {:induction false} SettledIgnores(list: seq<Sent>, ack: Ack, rest: seq<Ack>, now: int)
    requires AllLive(list) && forall i :: 0 <= i < |list| ==> list[i].Num() != ack.num
    ensures Settled(list, [ack] + rest, now) == Settled(list, rest, now)
  {
    if list != [] {
      assert ([ack] + rest)[1..] == rest;
      SettledIgnores(list[1..], ack, rest, now);
    }
  }

  lemma {:induction false} SettledStep(list: seq<Sent>, ack: Ack, rest: seq<Ack>, now: int)
    requires AllLive(list) && DistinctNums(list)
    ensures AllLive(ApplyAck(list, ack, now))
    ensures Settled(ApplyAck(list, ack, now), rest, now) == Settled(list, [ack] + rest, now)
  {
    hide Live, Acked, UnionFor, Union;
    ApplyAckLive(list, ack, now);
    var list' := ApplyAck(list, ack, now);
    if list != [] {
      var s := list[0];
      UnionForHead(ack, rest, s.Num());
      if s.Num() == ack.num {
        assert Live(s);
        AckedTwice(s, ack.flags, UnionFor(rest, s.Num()), now);
        SettledIgnores(list[1..], ack, rest, now);
        if Acked(s, ack.flags, now).None? {
          assert list' == list[1..];
        } else {
          assert list'[1..] == list[1..];
        }
      } else {
        ApplyAckTail(list, ack, now);
        SettledStep(list[1..], ack, rest, now);
        assert list'[1..] == ApplyAck(list[1..], ack, now);
      }
    }
  }

  lemma {:induction false} UnionForHead(ack: Ack, rest: seq<Ack>, num: nat)
    ensures UnionFor([ack] + rest, num)
      == if ack.num == num then Union(ack.flags, UnionFor(rest, num)) else UnionFor(rest, num)
  {
    hide Union;
    assert ([ack] + rest)[1..] == rest;
  }

  lemma {:induction false} ApplyAckTail(list: seq<Sent>, ack: Ack, now: int)
    requires AllLive(list) && list != [] && list[0].Num() != ack.num
    ensures ApplyAck(list, ack, now) == [list[0]] + ApplyAck(list[1..], ack, now)
  {
    hide Live, Acked;
    assert forall i :: 0 < i < |list| ==> list[i] == list[1..][i - 1];
  }

  lemma {:induction false} ApplyAckKeepsDistinct(list: seq<Sent>, ack: Ack, now: int)
    requires AllLive(list) && DistinctNums(list)
    ensures AllLive(ApplyAck(list, ack, now)) && DistinctNums(ApplyAck(list, ack, now))
  {
    hide Live, Union, Covers, Refreshed;
    ApplyAckLive(list, ack, now);
  }

  /** Acknowledgements one after another do to each datagram what their union does at once. */
  lemma {:induction false} AcksSettle(list: seq<Sent>, acks: seq<Ack>, now: int)
    requires AllLive(list) && DistinctNums(list)
    ensures ApplyAcks(list, acks, now) == Settled(list, acks, now)
    decreases |acks|
  {
    hide Live, ApplyAck;
    if acks == [] {
      SettledByNone(list, now);
    } else {
      ApplyAckKeepsDistinct(list, acks[0], now);
      AcksSettle(ApplyAck(list, acks[0], now), acks[1..], now);
      SettledStep(list, acks[0], acks[1..], now);
      assert [acks[0]] + acks[1..] == acks;
    }
  }

  // The union does not depend on order or repetition.

  lemma {:induction false} UnionForAbsorbs(acks: seq<Ack>, ack: Ack)
    requires ack in acks
    ensures Union(ack.flags, UnionFor(acks, ack.num)) == UnionFor(acks, ack.num)
  {
    hide Union;
    var rest := UnionFor(acks[1..], ack.num);
    UnionAlgebra(ack.flags, acks[0].flags, rest);
    UnionAlgebra(acks[0].flags, ack.flags, rest);
    UnionAlgebra(ack.flags, ack.flags, rest);
    if acks[0] != ack {
      UnionForAbsorbs(acks[1..], ack);
    }
  }

  lemma {:induction false} UnionForSubset(acks: seq<Ack>, more: seq<Ack>, num: nat)
    requires forall a :: a in more ==> a in acks
    ensures Union(UnionFor(more, num), UnionFor(acks, num)) == UnionFor(acks, num)
  {
    hide Union;
    var all := UnionFor(acks, num);
    UnionAlgebra(all, all, all);
    UnionAlgebra(NoFlags(), all, all);
    if more != [] {
      UnionForSubset(acks, more[1..], num);
      if more[0].num == num {
        UnionForAbsorbs(acks, more[0]);
        UnionAlgebra(more[0].flags, UnionFor(more[1..], num), all);
      }
    }
  }

  lemma {:induction false} UnionForSameAcks(a: seq<Ack>, b: seq<Ack>, num: nat)
    requires forall x :: x in a <==> x in b
    ensures UnionFor(a, num) == UnionFor(b, num)
  {
    hide Union, UnionFor;
    UnionForSubset(a, b, num);
    UnionForSubset(b, a, num);
    UnionAlgebra(UnionFor(a, num), UnionFor(b, num), UnionFor(b, num));
  }

  lemma {:induction false} AckedIgnoresNow(s: Sent, flags: Flags256, now: int, now': int)
    requires Live(s)
    ensures Acked(s, flags, now) == Acked(s, flags, now')
  {
    hide Has, Union;
  }

  lemma {:induction false} SettledBySameAcks(list: seq<Sent>, a: seq<Ack>, b: seq<Ack>, now: int, now': int)
    requires AllLive(list) && forall x :: x in a <==> x in b
    ensures Settled(list, a, now) == Settled(list, b, now')
  {
    hide Union, UnionFor, Acked, Live;
    if list != [] {
      UnionForSameAcks(a, b, list[0].Num());
      AckedIgnoresNow(list[0], UnionFor(a, list[0].Num()), now, now');
      SettledBySameAcks(list[1..], a, b, now, now');
    }
  }

  /** Any two batches with the same acknowledgements, in any order and any multiplicity, leave the same list. */
  lemma {:induction false} AcksConfluent(list: seq<Sent>, a: seq<Ack>, b: seq<Ack>, now: int, now': int)
    requires AllLive(list) && DistinctNums(list) && forall x :: x in a <==> x in b
    ensures ApplyAcks(list, a, now) == ApplyAcks(list, b, now')
  {
    AcksSettle(list, a, now);
    AcksSettle(list, b, now');
    SettledBySameAcks(list, a, b, now, now');
  }

  ghost predicate Survives(list: seq<Sent>, serial: nat) {
    exists i :: 0 <= i < |list| && list[i].serial == serial
  }

  lemma {:induction false} SettledSurvivors(list: seq<Sent>, acks: seq<Ack>, now: int, i: nat)
    requires AllLive(list) && DistinctNums(list) && i < |list|
    ensures Survives(Settled(list, acks, now), list[i].serial)
      <==> !Covers(Union(list[i].flags, UnionFor(acks, list[i].Num())), |list[i].slices|)
    ensures forall j :: 0 <= j < |Settled(list, acks, now)| ==> Survives(list, Settled(list, acks, now)[j].serial)
  {
    hide Live, UnionFor, Union, Covers, Refreshed;
    var s, tail := list[0], list[1..];
    assert Live(s);
    AckedLive(s, UnionFor(acks, s.Num()), now);
    var head := Acked(s, UnionFor(acks, s.Num()), now);
    var rest := Settled(tail, acks, now);
    var all := Settled(list, acks, now);
    if |list| > 1 {
      SettledSurvivors(tail, acks, now, if i > 0 then i - 1 else 0);
    }
    forall j | 0 <= j < |rest| ensures Survives(list, rest[j].serial) && rest[j].serial != s.serial {
      var k :| 0 <= k < |tail| && tail[k].serial == rest[j].serial;
      assert list[k + 1] == tail[k];
      assert list[0].Num() != list[k + 1].Num();
    }
    if head.Some? {
      assert all[0].serial == s.serial && all[1..] == rest;
      assert forall j :: 0 < j < |all| ==> all[j] == rest[j - 1];
      if i > 0 {
        SurvivesTail(all, list[i].serial);
        assert list[0].Num() != list[i].Num();
      }
    } else {
      assert all == rest;
    }
  }

  lemma {:induction false} SurvivesTail(list: seq<Sent>, serial: nat)
    requires list != [] && list[0].serial != serial
    ensures Survives(list, serial) <==> Survives(list[1..], serial)
  {
    if Survives(list, serial) {
      var i :| 0 <= i < |list| && list[i].serial == serial;
      assert list[1..][i - 1] == list[i];
    }
    if Survives(list[1..], serial) {
      var i :| 0 <= i < |list[1..]| && list[1..][i].serial == serial;
      assert list[i + 1] == list[1..][i];
    }
  }

  /** A datagram leaves exactly when everything acknowledged for it, now or before, covers its blocks. */
  lemma {:induction false} LeavesWhenCovered(list: seq<Sent>, acks: seq<Ack>, now: int, i: nat)
    requires AllLive(list) && DistinctNums(list) && i < |list|
    ensures Survives(ApplyAcks(list, acks, now), list[i].serial)
      <==> !Covers(Union(list[i].flags, UnionFor(acks, list[i].Num())), |list[i].slices|)
  {
    AcksSettle(list, acks, now);
    SettledSurvivors(list, acks, now, i);
  }
}
