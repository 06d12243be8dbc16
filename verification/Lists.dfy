/** Taking elements out of a list by position, as the retry passes do. */
module Lists {

  /** The list without these positions, given in rising order, the elements taken out from the last to the first. */
  function Without<T>(list: seq<T>, remove: seq<nat>): seq<T>
    decreases |remove|
  {
    if remove == [] then list
    else
      var r := remove[|remove| - 1];
      Without(if r < |list| then list[..r] + list[r + 1..] else list, remove[..|remove| - 1])
  }

  ghost predicate Below(remove: seq<nat>, n: nat) {
    forall i :: 0 <= i < |remove| ==> remove[i] < n
  }

  ghost predicate Rising(remove: seq<nat>) {
    forall i, j :: 0 <= i < j < |remove| ==> remove[i] < remove[j]
  }

  lemma {:induction false} WithoutAppend<T>(list: seq<T>, s: T, remove: seq<nat>)
    requires Below(remove, |list|) && Rising(remove)
    ensures Without(list + [s], remove) == Without(list, remove) + [s]
    decreases |remove|
  {
    if remove != [] {
      var r, front := remove[|remove| - 1], remove[..|remove| - 1];
      assert (list + [s])[..r] + (list + [s])[r + 1..] == (list[..r] + list[r + 1..]) + [s];
      WithoutAppend(list[..r] + list[r + 1..], s, front);
    }
  }

  lemma {:induction false} WithoutLast<T>(list: seq<T>, s: T, remove: seq<nat>)
    ensures Without(list + [s], remove + [|list|]) == Without(list, remove)
  {
    assert (list + [s])[..|list|] + (list + [s])[|list| + 1..] == list;
    assert (remove + [|list|])[..|remove|] == remove;
  }

  method TakeOut<T>(list: seq<T>, remove: seq<nat>) returns (kept: seq<T>)
    requires Below(remove, |list|) && Rising(remove)
    ensures kept == Without(list, remove)
  {
    kept := list;
    var n := |remove|;
    assert remove[..n] == remove;
    while n > 0
      invariant 0 <= n <= |remove| && Without(kept, remove[..n]) == Without(list, remove)
      invariant n > 0 ==> remove[n - 1] < |kept|
    {
      n := n - 1;
      var r := remove[n];
      assert remove[..n + 1][..n] == remove[..n] && remove[..n + 1][n] == r;
      assert n > 0 ==> remove[n - 1] < r;
      kept := kept[..r] + kept[r + 1..];
    }
    assert remove[..0] == [];
  }
}
