/**
 Lists whose elements have a unique key, as the three queues and sending lists are: removal by key, and
 what dropping and changing elements keeps. `keyOf` gives the key of an element.
 */
module KeyedLists {
  import opened SentDatagrams

  // Keys.

  /** The first element with this key goes. */
  function RemoveKey<T>(list: seq<T>, keyOf: T -> UniqueKey, key: UniqueKey): seq<T> {
    if list == [] then []
    else if keyOf(list[0]) == key then list[1..]
    else [list[0]] + RemoveKey(list[1..], keyOf, key)
  }

  predicate HasKey<T>(list: seq<T>, keyOf: T -> UniqueKey, key: UniqueKey) {
    exists i :: 0 <= i < |list| && keyOf(list[i]) == key
  }

  /** At most one element per key. */
  ghost predicate KeysUnique<T>(list: seq<T>, keyOf: T -> UniqueKey) {
    forall i, j :: 0 <= i < j < |list| && keyOf(list[i]) == keyOf(list[j]) ==> keyOf(list[i]).IsNone()
  }

  lemma {:induction false} HasKeyHead<T>(list: seq<T>, keyOf: T -> UniqueKey, key: UniqueKey)
    requires list != []
    ensures HasKey(list, keyOf, key) <==> keyOf(list[0]) == key || HasKey(list[1..], keyOf, key)
  {
    if HasKey(list, keyOf, key) && keyOf(list[0]) != key {
      var i :| 0 <= i < |list| && keyOf(list[i]) == key;
      assert list[1..][i - 1] == list[i];
    }
    if HasKey(list[1..], keyOf, key) {
      var i :| 0 <= i < |list[1..]| && keyOf(list[1..][i]) == key;
      assert list[i + 1] == list[1..][i];
    }
  }

  lemma {:induction false} RemoveAbsent<T>(list: seq<T>, keyOf: T -> UniqueKey, key: UniqueKey)
    requires !HasKey(list, keyOf, key)
    ensures RemoveKey(list, keyOf, key) == list
  {
    if list != [] {
      HasKeyHead(list, keyOf, key);
      RemoveAbsent(list[1..], keyOf, key);
    }
  }

  /** With at most one element per key, removing the first leaves none. */
  lemma {:induction false} RemoveKeyClears<T>(list: seq<T>, keyOf: T -> UniqueKey, key: UniqueKey, other: UniqueKey)
    requires KeysUnique(list, keyOf) && !key.IsNone()
    ensures HasKey(RemoveKey(list, keyOf, key), keyOf, other) <==> HasKey(list, keyOf, other) && other != key
  {
    if list != [] {
      var tail := list[1..];
      KeysUniqueTail(list, keyOf);
      HasKeyHead(list, keyOf, other);
      if keyOf(list[0]) == key {
        forall i | 0 <= i < |tail| ensures keyOf(tail[i]) != key {
          assert tail[i] == list[i + 1] && keyOf(list[0]) == key;
        }
      } else {
        RemoveKeyClears(tail, keyOf, key, other);
        HasKeyHead(RemoveKey(list, keyOf, key), keyOf, other);
        assert RemoveKey(list, keyOf, key)[1..] == RemoveKey(tail, keyOf, key);
      }
    }
  }

  lemma {:induction false} KeysUniqueTail<T>(list: seq<T>, keyOf: T -> UniqueKey)
    requires KeysUnique(list, keyOf) && list != []
    ensures KeysUnique(list[1..], keyOf)
  {
    assert forall i :: 0 <= i < |list[1..]| ==> list[1..][i] == list[i + 1];
  }

  // Thinning.

  /** `part` is `list` with elements dropped and the others changed only within `same`. */
  ghost predicate Thinned<T>(part: seq<T>, list: seq<T>, same: (T, T) -> bool) {
    if list == [] then part == []
    else
      || (part != [] && same(part[0], list[0]) && Thinned(part[1..], list[1..], same))
      || Thinned(part, list[1..], same)
  }

  ghost predicate Member<T>(list: seq<T>, x: T, same: (T, T) -> bool) {
    exists i :: 0 <= i < |list| && same(x, list[i])
  }

  ghost predicate Pairwise<T>(list: seq<T>, rel: (T, T) -> bool) {
    forall i, j :: 0 <= i < j < |list| ==> rel(list[i], list[j])
  }

  /** What holds of two elements holds of what became of them. */
  ghost predicate Carries<T(!new)>(same: (T, T) -> bool, rel: (T, T) -> bool) {
    forall a, a', b, b' :: same(a, a') && same(b, b') && rel(a', b') ==> rel(a, b)
  }

  lemma {:induction false} MemberOfTail<T>(list: seq<T>, x: T, same: (T, T) -> bool)
    requires list != [] && Member(list[1..], x, same)
    ensures Member(list, x, same)
  {
    var i :| 0 <= i < |list[1..]| && same(x, list[1..][i]);
    assert same(x, list[i + 1]);
  }

  lemma {:induction false} ThinnedMembers<T>(part: seq<T>, list: seq<T>, same: (T, T) -> bool)
    requires Thinned(part, list, same)
    ensures forall i :: 0 <= i < |part| ==> Member(list, part[i], same)
  {
    if list != [] {
      if part != [] && same(part[0], list[0]) && Thinned(part[1..], list[1..], same) {
        ThinnedMembers(part[1..], list[1..], same);
        forall i | 0 <= i < |part| ensures Member(list, part[i], same) {
          if i > 0 {
            assert part[i] == part[1..][i - 1];
            MemberOfTail(list, part[i], same);
          }
        }
      } else {
        ThinnedMembers(part, list[1..], same);
        forall i | 0 <= i < |part| ensures Member(list, part[i], same) {
          MemberOfTail(list, part[i], same);
        }
      }
    }
  }

  /** Thinning keeps every relation between earlier and later elements that changes within `same` carry along. */
  lemma {:induction false} ThinnedKeeps<T(!new)>(part: seq<T>, list: seq<T>, same: (T, T) -> bool, rel: (T, T) -> bool)
    requires Thinned(part, list, same) && Pairwise(list, rel) && Carries(same, rel)
    ensures Pairwise(part, rel)
  {
    if list != [] {
      var tail := list[1..];
      assert forall i :: 0 <= i < |tail| ==> tail[i] == list[i + 1];
      if part != [] && same(part[0], list[0]) && Thinned(part[1..], tail, same) {
        ThinnedKeeps(part[1..], tail, same, rel);
        ThinnedMembers(part[1..], tail, same);
        forall j | 0 < j < |part| ensures rel(part[0], part[j]) {
          assert part[j] == part[1..][j - 1];
          var k :| 0 <= k < |tail| && same(part[j], tail[k]);
          assert rel(list[0], list[k + 1]);
        }
        HeadFirst(part, rel);
      } else {
        ThinnedKeeps(part, tail, same, rel);
      }
    }
  }

  lemma {:induction false} HeadFirst<T>(list: seq<T>, rel: (T, T) -> bool)
    requires list != [] && Pairwise(list[1..], rel) && forall j :: 0 < j < |list| ==> rel(list[0], list[j])
    ensures Pairwise(list, rel)
  {
    assert forall i :: 0 < i < |list| ==> list[i] == list[1..][i - 1];
  }

  ghost predicate Reflexive<T(!new)>(same: (T, T) -> bool) {
    forall x :: same(x, x)
  }

  lemma {:induction false} ThinnedKept<T>(part: seq<T>, list: seq<T>, same: (T, T) -> bool)
    requires part != [] && list != [] && same(part[0], list[0]) && Thinned(part[1..], list[1..], same)
    ensures Thinned(part, list, same)
  {
  }

  lemma {:induction false} ThinnedRest<T>(part: seq<T>, list: seq<T>, same: (T, T) -> bool)
    requires list != [] && Thinned(part, list[1..], same)
    ensures Thinned(part, list, same)
  {
  }

  lemma {:induction false} ThinnedSelf<T(!new)>(list: seq<T>, same: (T, T) -> bool)
    requires Reflexive(same)
    ensures Thinned(list, list, same)
  {
    if list != [] {
      ThinnedSelf(list[1..], same);
    }
  }

  /** Changing one element is thinning. */
  lemma {:induction false} ThinnedChange<T(!new)>(list: seq<T>, i: nat, x: T, same: (T, T) -> bool)
    requires i < |list| && same(x, list[i]) && Reflexive(same)
    ensures Thinned(list[i := x], list, same)
  {
    hide Thinned;
    var tail, part := list[1..], list[i := x];
    if i == 0 {
      ThinnedSelf(tail, same);
      assert part[1..] == tail;
    } else {
      ThinnedChange(tail, i - 1, x, same);
      assert part[1..] == tail[i - 1 := x];
    }
    ThinnedKept(part, list, same);
  }

  /** Dropping one element is thinning. */
  lemma {:induction false} ThinnedDrop<T(!new)>(list: seq<T>, i: nat, same: (T, T) -> bool)
    requires i < |list| && Reflexive(same)
    ensures Thinned(list[..i] + list[i + 1..], list, same)
  {
    var tail, part := list[1..], list[..i] + list[i + 1..];
    if i == 0 {
      ThinnedSelf(tail, same);
      assert part == tail;
    } else {
      ThinnedDrop(tail, i - 1, same);
      assert part[0] == list[0] && part[1..] == tail[..i - 1] + tail[i..];
      ThinnedKept(part, list, same);
    }
  }

  lemma {:induction false} RemoveKeyThins<T(!new)>(list: seq<T>, keyOf: T -> UniqueKey, key: UniqueKey,
      same: (T, T) -> bool)
    requires Reflexive(same)
    ensures Thinned(RemoveKey(list, keyOf, key), list, same)
    ensures forall x :: x in RemoveKey(list, keyOf, key) ==> x in list
  {
    if list != [] {
      var tail := list[1..];
      if keyOf(list[0]) == key {
        ThinnedSelf(tail, same);
      } else {
        RemoveKeyThins(tail, keyOf, key, same);
        assert RemoveKey(list, keyOf, key)[1..] == RemoveKey(tail, keyOf, key);
      }
    }
  }
}
