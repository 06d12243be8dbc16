/** The three send queues: among commands with the same key the last one stays (src/client/send_queue.rs). */
module SendQueue {
  import opened Bytes
  import opened SentDatagrams
  import opened KeyedLists

  datatype Priority = Sliced | High | Low

  datatype Queued = Queued(
    cmd: byte, data: seq<byte>, encrypted: bool, priority: Priority, maxRetries: int, key: UniqueKey)

  function KeyOf(x: Queued): UniqueKey {
    x.key
  }

  predicate Dedups(item: Queued) {
    !item.key.IsNone() && item.priority != Low
  }

  function Push(q: seq<Queued>, item: Queued): seq<Queued> {
    (if Dedups(item) then RemoveKey(q, KeyOf, item.key) else q) + [item]
  }

  function PushAll(q: seq<Queued>, items: seq<Queued>): seq<Queued>
    decreases |items|
  {
    if items == [] then q else PushAll(Push(q, items[0]), items[1..])
  }

  // The reference: what is left of a history of pushes to one queue.

  /** Commands that no later command with the same key replaced. */
  function Latest(items: seq<Queued>): seq<Queued> {
    if items == [] then []
    else (if Dedups(items[0]) && HasKey(items[1..], KeyOf, items[0].key) then [] else [items[0]]) + Latest(items[1..])
  }

  ghost predicate OneQueue(items: seq<Queued>, priority: Priority) {
    forall i :: 0 <= i < |items| ==> items[i].priority == priority
  }

  lemma {:induction false} HasKeyLast(q: seq<Queued>, item: Queued, key: UniqueKey)
    ensures HasKey(q + [item], KeyOf, key) <==> HasKey(q, KeyOf, key) || item.key == key
  {
    if HasKey(q + [item], KeyOf, key) && item.key != key {
      var i :| 0 <= i < |q + [item]| && (q + [item])[i].key == key;
      assert q[i].key == key;
    }
    if HasKey(q, KeyOf, key) {
      var i :| 0 <= i < |q| && q[i].key == key;
      assert (q + [item])[i].key == key;
    }
    assert (q + [item])[|q|] == item;
  }

  lemma {:induction false} LatestKeys(items: seq<Queued>, key: UniqueKey)
    ensures HasKey(Latest(items), KeyOf, key) <==> HasKey(items, KeyOf, key)
  {
    hide HasKey;
    if items == [] {
      NoKeys(key);
    } else {
      var x, rest := items[0], items[1..];
      HasKeyHead(items, KeyOf, key);
      LatestKeys(rest, key);
      if Dedups(x) && HasKey(rest, KeyOf, x.key) {
        assert Latest(items) == Latest(rest);
      } else {
        HasKeyHead(Latest(items), KeyOf, key);
        assert Latest(items)[1..] == Latest(rest);
      }
    }
  }

  lemma {:induction false} NoKeys(key: UniqueKey)
    ensures !HasKey([], KeyOf, key)
  {
  }

  /** At most one command per key is left. */
  lemma {:induction false} LatestKeysUnique(items: seq<Queued>, priority: Priority)
    requires OneQueue(items, priority) && priority != Low
    ensures KeysUnique(Latest(items), KeyOf)
  {
    if items != [] {
      var x, rest := items[0], items[1..];
      LatestKeysUnique(rest, priority);
      LatestKeys(rest, x.key);
      if !(Dedups(x) && HasKey(rest, KeyOf, x.key)) {
        var q, tail := Latest(items), Latest(rest);
        forall j | 0 < j < |q| ensures q[j] == tail[j - 1] && (q[0].key == q[j].key ==> x.key.IsNone()) {
          if q[j].key == x.key {
            assert HasKey(tail, KeyOf, x.key);
          }
        }
      }
    }
  }

  /** Removing the first command with a key makes room for the next one exactly as the reference does. */
  lemma {:induction false} LatestPush(items: seq<Queued>, y: Queued)
    requires OneQueue(items + [y], y.priority)
    ensures Latest(items + [y]) == Push(Latest(items), y)
  {
    hide HasKey;
    if items == [] {
      assert items + [y] == [y] && [y][1..] == [];
      NoKeys(y.key);
    } else {
      var x, rest := items[0], items[1..];
      assert (items + [y])[1..] == rest + [y] && (items + [y])[0] == x;
      assert x.priority == y.priority;
      assert OneQueue(rest + [y], y.priority);
      LatestPush(rest, y);
      HasKeyLast(rest, y, x.key);
      LatestKeys(rest, x.key);
      var tail := Latest(rest);
      assert [] + tail == tail && [] + Latest(rest + [y]) == Latest(rest + [y]);
      if Dedups(y) {
        if x.key == y.key {
          if !HasKey(rest, KeyOf, x.key) {
            RemoveAbsent(tail, KeyOf, y.key);
            assert ([x] + tail)[1..] == tail;
          }
        } else {
          assert ([x] + tail)[1..] == tail;
        }
      } else if x.key == y.key {
        assert !Dedups(x);
      }
    }
  }

  lemma {:induction false} PushAllSplit(q: seq<Queued>, items: seq<Queued>, y: Queued)
    ensures PushAll(q, items + [y]) == Push(PushAll(q, items), y)
    decreases |items|
  {
    if items == [] {
      assert items + [y] == [y];
    } else {
      assert (items + [y])[1..] == items[1..] + [y];
      PushAllSplit(Push(q, items[0]), items[1..], y);
    }
  }

  /** Last writer wins: a queue holds exactly the pushed commands that no later one replaced, in order. */
  lemma {:induction false} LastWriterWins(items: seq<Queued>, priority: Priority)
    requires OneQueue(items, priority)
    ensures PushAll([], items) == Latest(items)
    ensures priority != Low ==> KeysUnique(PushAll([], items), KeyOf)
  {
    if items != [] {
      var front, y := items[..|items| - 1], items[|items| - 1];
      assert items == front + [y];
      LastWriterWins(front, priority);
      PushAllSplit([], front, y);
      LatestPush(front, y);
    }
    if priority != Low {
      LatestKeysUnique(items, priority);
    }
  }

  /** Nothing is dropped from the low queue. */
  lemma {:induction false} LowKeepsAll(items: seq<Queued>)
    requires OneQueue(items, Low)
    ensures PushAll([], items) == items
  {
    LastWriterWins(items, Low);
    LatestLow(items);
  }

  lemma {:induction false} LatestLow(items: seq<Queued>)
    requires OneQueue(items, Low)
    ensures Latest(items) == items
  {
    if items != [] {
      LatestLow(items[1..]);
    }
  }

  // The object.

  function Of(items: seq<Queued>, priority: Priority): seq<Queued> {
    if items == [] then []
    else (if items[0].priority == priority then [items[0]] else []) + Of(items[1..], priority)
  }

  class SendQueues {
    var sliced: seq<Queued>
    var high: seq<Queued>
    var low: seq<Queued>
    /** Everything pushed since the queues were last taken. */
    ghost var pushed: seq<Queued>

    ghost predicate Valid()
      reads this
    {
      sliced == Latest(Of(pushed, Sliced)) && high == Latest(Of(pushed, High)) && low == Of(pushed, Low)
    }

    constructor ()
      ensures Valid() && pushed == [] && sliced == high == low == []
    {
      sliced, high, low, pushed := [], [], [], [];
    }

    method PushSendCmdInt(item: Queued)
      requires Valid()
      modifies this
      ensures Valid() && pushed == old(pushed) + [item]
    {
      hide Latest;
      ghost var p := item.priority;
      OfPush(pushed, item);
      OneQueueOf(pushed, p);
      LatestPush(Of(pushed, p), item);
      if item.priority == Sliced {
        sliced := Push(sliced, item);
      } else if item.priority == High {
        high := Push(high, item);
      } else {
        LatestLow(Of(pushed, Low));
        LatestLow(Of(pushed, Low) + [item]);
        low := low + [item];
      }
      pushed := pushed + [item];
    }

    /** Hands over all three queues; keyed commands in a batch have distinct keys. */
    method TakeInto() returns (s: seq<Queued>, h: seq<Queued>, l: seq<Queued>)
      requires Valid()
      modifies this
      ensures Valid() && pushed == []
      ensures s == Latest(Of(old(pushed), Sliced)) && h == Latest(Of(old(pushed), High)) && l == Of(old(pushed), Low)
      ensures KeysUnique(s, KeyOf) && KeysUnique(h, KeyOf)
    {
      OneQueueOf(pushed, Sliced);
      OneQueueOf(pushed, High);
      LatestKeysUnique(Of(pushed, Sliced), Sliced);
      LatestKeysUnique(Of(pushed, High), High);
      s, h, l := sliced, high, low;
      sliced, high, low, pushed := [], [], [], [];
    }
  }

  lemma {:induction false} OfPush(items: seq<Queued>, y: Queued)
    ensures forall p :: Of(items + [y], p) == if y.priority == p then Of(items, p) + [y] else Of(items, p)
  {
    forall p ensures Of(items + [y], p) == if y.priority == p then Of(items, p) + [y] else Of(items, p) {
      OfPushOne(items, y, p);
    }
  }

  lemma {:induction false} OfPushOne(items: seq<Queued>, y: Queued, p: Priority)
    ensures Of(items + [y], p) == if y.priority == p then Of(items, p) + [y] else Of(items, p)
  {
    if items == [] {
      assert items + [y] == [y];
    } else {
      assert (items + [y])[0] == items[0] && (items + [y])[1..] == items[1..] + [y];
      OfPushOne(items[1..], y, p);
      var head := if items[0].priority == p then [items[0]] else [];
      assert head + (Of(items[1..], p) + [y]) == (head + Of(items[1..], p)) + [y];
    }
  }

  lemma {:induction false} OneQueueOf(items: seq<Queued>, p: Priority)
    ensures OneQueue(Of(items, p), p)
  {
    if items != [] {
      OneQueueOf(items[1..], p);
    }
  }
}
