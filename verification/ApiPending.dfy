/**
 The registry of pending requests under all interleavings: a response is delivered in two critical
 sections, with parsing in between and other threads free to act (src/api_pending.rs).
 */
module ApiPending {
  import opened Bytes

  const SWEEP_INTERVAL: int := 1000

  /** A waiter is the receiving end of one registration. */
  datatype Entry = Entry(waiter: nat, deadline: int)

  datatype Registry = Registry(entries: map<nat, Entry>, lastSweep: int)

  // Critical sections.

  function Swept(r: Registry, now: int): Registry {
    if now - r.lastSweep < SWEEP_INTERVAL then r
    else Registry(map uid | uid in r.entries && r.entries[uid].deadline > now :: r.entries[uid], now)
  }

  function Registered(r: Registry, uid: nat, entry: Entry, now: int): Registry {
    var r1 := Swept(r, now);
    r1.(entries := r1.entries[uid := entry])
  }

  /** First section: the waiter leaves the registry; an expired one is dropped. */
  function Taken(r: Registry, uid: nat, now: int): (res: (Registry, Option<Entry>)) {
    if uid !in r.entries then (Swept(r, now), None)
    else
      var r1 := r.(entries := r.entries - {uid});
      if r.entries[uid].deadline <= now then (r1, None) else (r1, Some(r.entries[uid]))
  }

  /** Second section, after a failed parse: back in until the deadline, unless the place is taken. */
  function PutBack(r: Registry, uid: nat, entry: Entry, now: int): Registry {
    if entry.deadline > now && uid !in r.entries then r.(entries := r.entries[uid := entry]) else r
  }

  function Removed(r: Registry, uid: nat): Registry {
    r.(entries := r.entries - {uid})
  }

  // All threads together.

  /** A dispatch between its two sections. */
  datatype Flight = Flight(uid: nat, entry: Entry)

  /** A response handed to a waiter. */
  datatype Delivered = Delivered(waiter: nat, uid: nat)

  /** `owners` records each registration: its request and deadline, indexed by waiter. */
  datatype System = System(r: Registry, flights: map<nat, Flight>, owners: seq<(nat, int)>, log: seq<Delivered>)

  datatype Action =
    | Register(uid: nat, deadline: int, now: int)
    | Begin(thread: nat, uid: nat, now: int)
    | Deliver(thread: nat, respUid: nat)
    | Fail(thread: nat, now: int)
    | Remove(uid: nat)

  predicate Enabled(s: System, a: Action) {
    match a
    case Begin(t, _, _) => t !in s.flights
    case Deliver(t, respUid) => t in s.flights && respUid == s.flights[t].uid
    case Fail(t, _) => t in s.flights
    case _ => true
  }

  function Step(s: System, a: Action): System
    requires Enabled(s, a)
  {
    match a
    case Register(uid, deadline, now) =>
      s.(r := Registered(s.r, uid, Entry(|s.owners|, deadline), now), owners := s.owners + [(uid, deadline)])
    case Begin(t, uid, now) =>
      var (r, entry) := Taken(s.r, uid, now);
      s.(r := r, flights := if entry.Some? then s.flights[t := Flight(uid, entry.value)] else s.flights)
    case Deliver(t, respUid) =>
      s.(flights := s.flights - {t}, log := s.log + [Delivered(s.flights[t].entry.waiter, respUid)])
    case Fail(t, now) =>
      s.(r := PutBack(s.r, s.flights[t].uid, s.flights[t].entry, now), flights := s.flights - {t})
    case Remove(uid) => s.(r := Removed(s.r, uid))
  }

  /** The entry of a waiter is the one it registered. */
  predicate Genuine(s: System, uid: nat, e: Entry) {
    e.waiter < |s.owners| && s.owners[e.waiter] == (uid, e.deadline)
  }

  ghost predicate InLog(s: System, waiter: nat) {
    exists i :: 0 <= i < |s.log| && s.log[i].waiter == waiter
  }

  /** A waiter is in one place: the registry, one dispatch in flight, or the log, where it stays. */
  ghost predicate Inv(s: System) {
    && (forall uid :: uid in s.r.entries ==>
          Genuine(s, uid, s.r.entries[uid]) && !InLog(s, s.r.entries[uid].waiter))
    && (forall t :: t in s.flights ==>
          && Genuine(s, s.flights[t].uid, s.flights[t].entry) && !InLog(s, s.flights[t].entry.waiter)
          && (s.flights[t].uid in s.r.entries ==> s.r.entries[s.flights[t].uid].waiter != s.flights[t].entry.waiter))
    && (forall t, u :: t in s.flights && u in s.flights && t != u ==>
      s.flights[t].entry.waiter != s.flights[u].entry.waiter)
    && (forall i :: 0 <= i < |s.log| ==> s.log[i].waiter < |s.owners| && s.owners[s.log[i].waiter].0 == s.log[i].uid)
    && (forall i, j :: 0 <= i < j < |s.log| ==> s.log[i].waiter != s.log[j].waiter)
  }

  lemma {:induction false} InLogAppend(s: System, s': System, d: Delivered, waiter: nat)
    requires s'.log == s.log + [d]
    ensures InLog(s', waiter) <==> InLog(s, waiter) || d.waiter == waiter
  {
    if InLog(s, waiter) {
      var i :| 0 <= i < |s.log| && s.log[i].waiter == waiter;
      assert s'.log[i].waiter == waiter;
    }
    assert s'.log[|s.log|] == d;
  }

  lemma {:induction false} StepKeeps(s: System, a: Action)
    requires Inv(s) && Enabled(s, a)
    ensures Inv(Step(s, a))
  {
    hide Inv, Step;
    match a
    case Register(uid, deadline, now) => RegisterKeeps(s, uid, deadline, now);
    case Begin(t, uid, now) => BeginKeeps(s, t, uid, now);
    case Deliver(t, respUid) => DeliverKeeps(s, t, respUid);
    case Fail(t, now) => FailKeeps(s, t, now);
    case Remove(uid) => RemoveKeeps(s, uid);
  }

  lemma {:induction false} FailKeeps(s: System, t: nat, now: int)
    requires Inv(s) && t in s.flights
    ensures Inv(Step(s, Fail(t, now)))
  {
    var s' := Step(s, Fail(t, now));
    assert forall w :: InLog(s', w) <==> InLog(s, w);
    assert forall k, e :: Genuine(s, k, e) <==> Genuine(s', k, e);
  }

  lemma {:induction false} RemoveKeeps(s: System, uid: nat)
    requires Inv(s)
    ensures Inv(Step(s, Remove(uid)))
  {
    var s' := Step(s, Remove(uid));
    assert forall w :: InLog(s', w) <==> InLog(s, w);
    assert forall k, e :: Genuine(s, k, e) <==> Genuine(s', k, e);
  }

  lemma {:induction false} RegisterKeeps(s: System, uid: nat, deadline: int, now: int)
    requires Inv(s)
    ensures Inv(Step(s, Register(uid, deadline, now)))
  {
    var s' := Step(s, Register(uid, deadline, now));
    assert forall w :: InLog(s', w) <==> InLog(s, w);
    assert forall k, e :: Genuine(s, k, e) ==> Genuine(s', k, e);
    assert !InLog(s, |s.owners|);
  }

  lemma {:induction false} BeginKeeps(s: System, t: nat, uid: nat, now: int)
    requires Inv(s) && t !in s.flights
    ensures Inv(Step(s, Begin(t, uid, now)))
  {
    var s' := Step(s, Begin(t, uid, now));
    assert forall w :: InLog(s', w) <==> InLog(s, w);
    assert forall k, e :: Genuine(s, k, e) <==> Genuine(s', k, e);
  }

  lemma {:induction false} DeliverKeeps(s: System, t: nat, respUid: nat)
    requires Inv(s) && Enabled(s, Deliver(t, respUid))
    ensures Inv(Step(s, Deliver(t, respUid)))
  {
    var s' := Step(s, Deliver(t, respUid));
    var d := Delivered(s.flights[t].entry.waiter, respUid);
    forall w ensures InLog(s', w) <==> InLog(s, w) || d.waiter == w {
      InLogAppend(s, s', d, w);
    }
    assert forall k, e :: Genuine(s, k, e) <==> Genuine(s', k, e);
    forall uid | uid in s.r.entries ensures s.r.entries[uid].waiter != d.waiter {
      assert Genuine(s, uid, s.r.entries[uid]) && Genuine(s, s.flights[t].uid, s.flights[t].entry);
    }
  }

  ghost predicate IsRun(s: System, actions: seq<Action>, s': System)
    decreases |actions|
  {
    if actions == [] then s' == s else Enabled(s, actions[0]) && IsRun(Step(s, actions[0]), actions[1..], s')
  }

  lemma {:induction false} RunKeeps(s: System, actions: seq<Action>, s': System)
    requires Inv(s) && IsRun(s, actions, s')
    ensures Inv(s')
    decreases |actions|
  {
    if actions != [] {
      StepKeeps(s, actions[0]);
      RunKeeps(Step(s, actions[0]), actions[1..], s');
    }
  }

  /**
   Whatever the interleaving: a waiter gets at most one response, and that response answers the request
   it registered for.
   */
  lemma {:induction false} AtMostOneResponse(actions: seq<Action>, s: System, i: nat, j: nat)
    requires IsRun(System(Registry(map[], 0), map[], [], []), actions, s) && i < |s.log| && j < |s.log|
    ensures s.log[i].waiter == s.log[j].waiter ==> i == j
    ensures s.log[i].waiter < |s.owners| && s.owners[s.log[i].waiter].0 == s.log[i].uid
  {
    RunKeeps(System(Registry(map[], 0), map[], [], []), actions, s);
  }

  /**
   A failed parse gives the waiter back its place with its own deadline, only while that is ahead and
   only if no newer registration took the place; every other waiter stays where it is.
   */
  lemma {:induction false} FailRestores(s: System, t: nat, now: int)
    requires Inv(s) && t in s.flights
    ensures
      var f := s.flights[t];
      var entries := Step(s, Fail(t, now)).r.entries;
      && (forall uid :: uid in s.r.entries ==> uid in entries && entries[uid] == s.r.entries[uid])
      && (forall uid :: uid in entries && uid !in s.r.entries ==> uid == f.uid && entries[uid] == f.entry)
      && (f.uid in entries && f.uid !in s.r.entries <==> f.uid !in s.r.entries && f.entry.deadline > now)
      && Genuine(s, f.uid, f.entry)
  {
  }

  // The object.

  class Pending {
    var entries: map<nat, Entry>
    var lastSweep: int

    function State(): Registry
      reads this
    {
      Registry(entries, lastSweep)
    }

    constructor (now: int)
      ensures State() == Registry(map[], now)
    {
      entries, lastSweep := map[], now;
    }

    /** Goes through all entries and drops the expired ones, at most once a second. */
    method SweepExpired(now: int)
      modifies this
      ensures State() == Swept(old(State()), now)
    {
      if now - lastSweep < SWEEP_INTERVAL {
        return;
      }
      lastSweep := now;
      var todo := entries.Keys;
      while todo != {}
        invariant todo <= entries.Keys <= old(entries).Keys && lastSweep == now
        invariant forall uid :: uid in entries ==> entries[uid] == old(entries)[uid]
        invariant forall uid :: uid in old(entries) && uid !in todo ==>
          (uid in entries <==> old(entries)[uid].deadline > now)
        decreases todo
      {
        var uid :| uid in todo;
        if entries[uid].deadline <= now {
          entries := entries - {uid};
        }
        todo := todo - {uid};
      }
      assert entries == Swept(old(State()), now).entries;
    }

    method RegisterWithTimeout(uid: nat, waiter: nat, timeout: nat, now: int)
      modifies this
      ensures State() == Registered(old(State()), uid, Entry(waiter, now + timeout), now)
    {
      var deadline := now + timeout;
      SweepExpired(now);
      entries := entries[uid := Entry(waiter, deadline)];
    }

    method Take(uid: nat, now: int) returns (entry: Option<Entry>)
      modifies this
      ensures (State(), entry) == Taken(old(State()), uid, now)
    {
      if uid !in entries {
        SweepExpired(now);
        return None;
      }
      var e := entries[uid];
      entries := entries - {uid};
      if e.deadline <= now {
        return None;
      }
      return Some(e);
    }

    method Reinsert(uid: nat, entry: Entry, now: int)
      modifies this
      ensures State() == PutBack(old(State()), uid, entry, now)
    {
      if entry.deadline > now {
        if uid !in entries {
          entries := entries[uid := entry];
        }
      }
    }
  }
}
