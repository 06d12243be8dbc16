/**
 The sliding window that accepts each message number at most once, and the half of it that is reported
 back as acknowledgement (src/protocol/slider.rs). A 64-bit word is the sequence of its bits, lowest first.
 */
module ReplayWindow {

  const SLIDER_LEN: nat := 64
  const SLIDER_LEN_BITS: nat := 4096

  type Word = w: seq<bool> | |w| == 64 witness seq(64, i => false)

  function Zero(): Word {
    seq(64, i => false)
  }

  datatype Window = Window(words: seq<Word>, start: nat)

  predicate Shaped(w: Window) {
    |w.words| == SLIDER_LEN && w.start % 64 == 0
  }

  predicate Bit(w: Window, num: nat)
    requires Shaped(w) && w.start <= num < w.start + SLIDER_LEN_BITS
  {
    w.words[(num - w.start) / 64][(num - w.start) % 64]
  }

  function Empty(): Window {
    Window(seq(SLIDER_LEN, i => Zero()), 0)
  }

  // One message number.

  /** The words moved down by `diff`, with zeros coming in at the end. */
  function Shifted(words: seq<Word>, diff: nat): (r: seq<Word>)
    requires |words| == SLIDER_LEN
    ensures |r| == SLIDER_LEN
  {
    (if diff < SLIDER_LEN then words[diff..] else []) + seq(if diff < SLIDER_LEN then diff else SLIDER_LEN, i => Zero())
  }

  function Slid(w: Window, num: nat): (r: Window)
    requires Shaped(w)
    ensures Shaped(r)
  {
    var diff := num / 64 - w.start / 64 - SLIDER_LEN + 1;
    if diff > 0 then Window(Shifted(w.words, diff), (num / 64 - SLIDER_LEN + 1) * 64) else w
  }

  function WithBit(w: Window, num: nat): (r: Window)
    requires Shaped(w) && w.start <= num < w.start + SLIDER_LEN_BITS
    ensures Shaped(r)
  {
    var d := num - w.start;
    w.(words := w.words[d / 64 := w.words[d / 64][d % 64 := true]])
  }

  /** The window after a number, and whether the number is new. */
  function Checked(w: Window, num: nat): (r: (Window, bool))
    requires Shaped(w)
    ensures Shaped(r.0)
  {
    var w' := Slid(w, num);
    if w'.start <= num < w'.start + SLIDER_LEN_BITS then (WithBit(w', num), !Bit(w', num)) else (w', false)
  }

  // Over runs: the window remembers exactly what was accepted.

  ghost predicate Remembers(w: Window, accepted: set<nat>) {
    && Shaped(w)
    && (forall x :: w.start <= x < w.start + SLIDER_LEN_BITS ==> (Bit(w, x) <==> x in accepted))
    && forall x :: x in accepted ==> x < w.start + SLIDER_LEN_BITS
  }

  lemma {:induction false} SlidBit(w: Window, num: nat, x: nat)
    requires Shaped(w) && Slid(w, num).start <= x < Slid(w, num).start + SLIDER_LEN_BITS
    ensures w.start <= Slid(w, num).start
    ensures Bit(Slid(w, num), x) <==> x < w.start + SLIDER_LEN_BITS && Bit(w, x)
  {
    var w' := Slid(w, num);
    var diff := num / 64 - w.start / 64 - SLIDER_LEN + 1;
    if diff > 0 {
      assert w'.start == w.start + 64 * diff;
      assert x - w.start == (x - w'.start) + 64 * diff;
      var d := x - w'.start;
      assert (d + 64 * diff) / 64 == d / 64 + diff && (d + 64 * diff) % 64 == d % 64;
      assert w'.words[d / 64] == if d / 64 + diff < SLIDER_LEN then w.words[d / 64 + diff] else Zero();
    }
  }

  lemma {:induction false} SlidRemembers(w: Window, accepted: set<nat>, num: nat)
    requires Remembers(w, accepted)
    ensures Remembers(Slid(w, num), accepted) && w.start <= Slid(w, num).start
    ensures num < Slid(w, num).start + SLIDER_LEN_BITS
  {
    var w' := Slid(w, num);
    forall x | w'.start <= x < w'.start + SLIDER_LEN_BITS ensures Bit(w', x) <==> x in accepted {
      SlidBit(w, num, x);
    }
    SlidBit(w, num, w'.start);
  }

  lemma {:induction false} WithBitBit(w: Window, num: nat, x: nat)
    requires Shaped(w) && w.start <= num < w.start + SLIDER_LEN_BITS && w.start <= x < w.start + SLIDER_LEN_BITS
    ensures Bit(WithBit(w, num), x) <==> x == num || Bit(w, x)
  {
    var d, e := num - w.start, x - w.start;
    assert d == e <==> d / 64 == e / 64 && d % 64 == e % 64;
  }

  /** A number is accepted exactly when it is not behind the window and was not accepted before. */
  lemma {:induction false} CheckedAccepts(w: Window, accepted: set<nat>, num: nat)
    requires Remembers(w, accepted)
    ensures
      var (w', isNew) := Checked(w, num);
      && (isNew <==> num >= w'.start && num !in accepted)
      && Remembers(w', if isNew then accepted + {num} else accepted) && w.start <= w'.start
  {
    hide Slid, WithBit, Bit;
    SlidRemembers(w, accepted, num);
    var w1 := Slid(w, num);
    if w1.start <= num {
      var w' := WithBit(w1, num);
      WithBitStart(w1, num);
      forall x | w'.start <= x < w'.start + SLIDER_LEN_BITS ensures Bit(w', x) <==> x in accepted + {num} {
        WithBitBit(w1, num, x);
      }
      if num in accepted {
        assert accepted + {num} == accepted;
      }
    }
  }

  lemma {:induction false} WithBitStart(w: Window, num: nat)
    requires Shaped(w) && w.start <= num < w.start + SLIDER_LEN_BITS
    ensures WithBit(w, num).start == w.start
  {
  }

  /** The numbers accepted out of a run, in order. */
  function Accepted(w: Window, nums: seq<nat>): seq<nat>
    requires Shaped(w)
    decreases |nums|
  {
    if nums == [] then []
    else
      var (w', isNew) := Checked(w, nums[0]);
      (if isNew then [nums[0]] else []) + Accepted(w', nums[1..])
  }

  ghost predicate Distinct(s: seq<nat>) {
    forall i, j :: 0 <= i < j < |s| ==> s[i] != s[j]
  }

  lemma {:induction false} AcceptedOnceFrom(w: Window, before: set<nat>, nums: seq<nat>)
    requires Remembers(w, before)
    ensures Distinct(Accepted(w, nums)) && forall x :: x in Accepted(w, nums) ==> x !in before
    decreases |nums|
  {
    hide Checked, Remembers;
    if nums != [] {
      RemembersShape(w, before);
      var (w', isNew) := Checked(w, nums[0]);
      CheckedAccepts(w, before, nums[0]);
      var after := if isNew then before + {nums[0]} else before;
      AcceptedOnceFrom(w', after, nums[1..]);
      if isNew {
        var tail := Accepted(w', nums[1..]);
        assert forall x :: x in tail ==> x != nums[0];
        assert forall i :: 0 < i < |[nums[0]] + tail| ==> ([nums[0]] + tail)[i] == tail[i - 1];
      }
    }
  }

  lemma {:induction false} RemembersShape(w: Window, accepted: set<nat>)
    requires Remembers(w, accepted)
    ensures Shaped(w)
  {
  }

  lemma {:induction false} EmptyRemembers()
    ensures Remembers(Empty(), {})
  {
  }

  /** No message number is ever accepted twice, in any run of any length. */
  lemma {:induction false} AcceptedOnce(nums: seq<nat>)
    ensures Distinct(Accepted(Empty(), nums))
  {
    EmptyRemembers();
    AcceptedOnceFrom(Empty(), {}, nums);
  }

  /** Within the span of the window nothing new is refused. */
  lemma {:induction false} AcceptedAll(w: Window, before: set<nat>, nums: seq<nat>, i: nat)
    requires Remembers(w, before) && i < |nums| && nums[i] !in before
    requires forall j :: 0 <= j <= i ==> nums[j] < w.start + SLIDER_LEN_BITS || nums[j] / 64 < nums[i] / 64 + SLIDER_LEN
    requires w.start <= nums[i]
    ensures nums[i] in Accepted(w, nums)
    decreases |nums|
  {
    hide Remembers;
    RemembersShape(w, before);
    var (w', isNew) := Checked(w, nums[0]);
    CheckedAccepts(w, before, nums[0]);
    if i > 0 {
      var after := if isNew then before + {nums[0]} else before;
      assert w'.start <= nums[i];
      if nums[0] == nums[i] {
        assert isNew;
      } else {
        assert forall j :: 0 <= j < i ==> nums[1..][j] == nums[j + 1];
        AcceptedAll(w', after, nums[1..], i - 1);
      }
    }
  }

  // Reporting back.

  /** How many of the first `n` words remain when trailing zero words are cut off. */
  function Trimmed(words: seq<Word>, n: nat): (count: nat)
    requires n <= |words|
    ensures count <= n && forall i :: count <= i < n ==> words[i] == Zero()
    ensures count > 0 ==> words[count - 1] != Zero()
  {
    if n > 0 && words[n - 1] == Zero() then Trimmed(words, n - 1) else n
  }

  /** The upper half of the window, without trailing zero words. */
  function AckHalf(w: Window): (r: (nat, seq<Word>))
    requires Shaped(w)
  {
    (w.start + 32 * 64, w.words[32..32 + Trimmed(w.words[32..], 32)])
  }

  predicate Confirms(start: nat, words: seq<Word>, num: nat) {
    start <= num && num - start < 64 * |words| && words[(num - start) / 64][(num - start) % 64]
  }

  /** A report confirms exactly the accepted numbers of the upper half. */
  lemma {:induction false} ReportExact(w: Window, accepted: set<nat>, num: nat)
    requires Remembers(w, accepted)
    ensures Confirms(AckHalf(w).0, AckHalf(w).1, num) <==> num in accepted && num >= w.start + 32 * 64
  {
    var count := Trimmed(w.words[32..], 32);
    if w.start + 32 * 64 <= num < w.start + SLIDER_LEN_BITS {
      var d := num - (w.start + 32 * 64);
      assert (num - w.start) / 64 == d / 64 + 32 && (num - w.start) % 64 == d % 64;
      if d / 64 >= count {
        assert w.words[32..][d / 64] == Zero();
        assert !Bit(w, num);
      }
    }
  }

  method BuildAckHalf(w: Window) returns (start: nat, words: seq<Word>)
    requires Shaped(w)
    ensures (start, words) == AckHalf(w)
  {
    start := w.start + 32 * 64;
    var local := w.words[32..];
    var count := 32;
    while count > 0 && local[count - 1] == Zero()
      invariant 0 <= count <= 32 && Trimmed(local, count) == Trimmed(local, 32)
    {
      count := count - 1;
    }
    words := local[..count];
    assert words == w.words[32..32 + count];
  }

  // The object.

  class Slider {
    const bitField: array<Word>
    var start: nat
    var epoch: nat

    function State(): Window
      reads this, bitField
    {
      Window(bitField[..], start)
    }

    constructor ()
      ensures State() == Empty() && fresh(bitField)
    {
      bitField := new Word[SLIDER_LEN](i => Zero());
      start, epoch := 0, 0;
    }

    /** Moves the words down in place and clears the tail. */
    method Shift(diff: nat)
      requires bitField.Length == SLIDER_LEN && 0 < diff
      modifies bitField
      ensures bitField[..] == Shifted(old(bitField[..]), diff)
    {
      ghost var was := bitField[..];
      if diff < SLIDER_LEN {
        var i := 0;
        while i < SLIDER_LEN - diff
          invariant 0 <= i <= SLIDER_LEN - diff
          invariant bitField[..i] == was[diff..diff + i] && bitField[i..] == was[i..]
        {
          assert bitField[i + diff] == bitField[i..][diff] == was[i + diff];
          bitField[i] := bitField[i + diff];
          i := i + 1;
        }
      }
      var first := if diff < SLIDER_LEN then SLIDER_LEN - diff else 0;
      ghost var kept := bitField[..first];
      for i := first to SLIDER_LEN
        invariant bitField[..first] == kept
        invariant forall j :: first <= j < i ==> bitField[j] == Zero()
      {
        bitField[i] := Zero();
      }
    }

    method SetBit(d: nat) returns (was: bool)
      requires bitField.Length == SLIDER_LEN && d < SLIDER_LEN_BITS
      modifies bitField
      ensures was == old(bitField[d / 64][d % 64])
      ensures bitField[..] == old(bitField[..])[d / 64 := old(bitField[d / 64])[d % 64 := true]]
    {
      was := bitField[d / 64][d % 64];
      bitField[d / 64] := bitField[d / 64][d % 64 := true];
    }

    method CheckRevd(num: nat) returns (isNew: bool)
      requires Shaped(State())
      modifies this, bitField
      ensures (State(), isNew) == Checked(old(State()), num)
    {
      hide Shifted;
      var diff := num / 64 - start / 64 - SLIDER_LEN + 1;
      if diff > 0 {
        epoch := (epoch + 1) % 256;
        start := (num / 64 - SLIDER_LEN + 1) * 64;
        Shift(diff);
        epoch := (epoch + 1) % 256;
      }
      assert State() == Slid(old(State()), num);
      if start <= num {
        var d := num - start;
        if d < SLIDER_LEN_BITS {
          var was := SetBit(d);
          return !was;
        }
      }
      return false;
    }
  }
}
