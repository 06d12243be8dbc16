/**
 The checks and packet handlers as the code runs them, statement by statement on the client's fields
 (src/client/protocol_connect.rs and the packet handlers). The session, the plan and the clocks are one
 record each.
 */
module Connecting {
  import opened Bytes
  import opened Numbers
  import opened Handshake

  class Connection {
    var wait: HelloWait
    var auth: AuthStatus
    var authorized: bool
    var plan: Plan
    var session: Session
    var handshakeRnd: nat
    var clocks: Clocks
    var rtt: int
    var cur: int
    /** Handshake packets handed to the socket, in order. */
    var out: seq<Out>

    function State(): Client
      reads this
    {
      Client(wait, auth, authorized, plan, session, handshakeRnd, clocks, rtt, cur, out)
    }

    constructor ()
      ensures State() == NewClient() && Inv(State())
    {
      wait, auth, authorized, plan := Idle, Base, false, Plan(true, false, false, false, false);
      session, handshakeRnd := Session(0, 0, None, None, None), 0;
      clocks := Clocks(NEVER_SENT_MS, 0, NEVER_SENT_MS, NEVER_SENT_MS, 0);
      rtt, cur, out := 0, 0, [];
      NewClientInv();
    }

    method FullReset()
      modifies `clocks, `wait, `session
      ensures State() == Reset(old(State()))
      ensures Inv(old(State())) ==> (Inv(State()) <==> !authorized && !plan.soft)
    {
      if Inv(State()) {
        ResetKeeps(State());
      }
      clocks := clocks.(online := 0, sentHello := NEVER_SENT_MS);
      wait := Idle;
      session := session.(ack := None);
    }

    method BeginPrimaryHello(rnd: nat)
      modifies this
      ensures State() == BeganPrimary(old(State()), rnd)
      ensures Inv(old(State())) ==> Inv(State())
      ensures wait.AllowsWhoAreYou() && !authorized && session.token == 0 && clocks.windowStart == cur
      ensures out == old(out) + [Hello]
    {
      hide Inv, PrimaryWait;
      if Inv(State()) {
        BeganKeeps(State(), rnd);
      }
      PrimaryWaits(State());
      var state := PrimaryWait(State());
      ForgetSession();
      handshakeRnd := rnd;
      StartHelloWait(state, cur);
      SendHello();
      plan := plan.(newSession := false);
    }

    /** The start of a primary handshake: nothing of the old session is kept. */
    method ForgetSession()
      modifies `plan, `clocks, `wait, `session, `authorized
      ensures plan == old(plan).(soft := false) && !authorized && wait == Idle
      ensures session == old(session).(ack := None, token := 0)
      ensures clocks == old(clocks).(online := 0, sentHello := NEVER_SENT_MS)
    {
      hide Inv;
      plan := plan.(soft := false);
      FullReset();
      session := session.(token := 0);
      authorized := false;
    }

    method StartHelloWait(state: HelloWait, at: int)
      modifies `wait, `clocks
      ensures wait == state && clocks == old(clocks).(windowStart := at)
    {
      clocks := clocks.(windowStart := at);
      wait := state;
    }

    method SendHello()
      modifies `out
      ensures out == old(out) + [Hello]
    {
      out := out + [Hello];
    }

    method SendHelloAgain()
      modifies `out
      ensures State() == SaidHelloAgain(old(State()))
      ensures session.token != 0 ==> out == old(out) + [HelloAgain(session.token)]
    {
      if session.token == 0 {
        return;
      }
      out := out + [HelloAgain(session.token)];
    }

    method SendImFriend()
      modifies `out
      ensures State() == SaidImFriend(old(State()))
      ensures Keyed(State()) ==> out == old(out) + [ImFriend(session.token, Derived(session.token, session.rnd))]
    {
      if session.token == 0 {
        return;
      }
      if session.encodeKey.None? {
        return;
      }
      out := out + [ImFriend(session.token, session.encodeKey.value)];
    }

    method SendRebindHelloAgain(newWindow: bool, rnd: nat)
      modifies this
      ensures State() == Rebound(old(State()), newWindow, rnd)
      ensures Inv(old(State())) && Keyed(old(State())) && (newWindow || !old(wait).Idle?) ==>
        && Inv(State()) && session == old(session) && authorized == old(authorized)
        && out == old(out) + [HelloAgain(session.token)]
    {
      hide Inv, Keyed, SaidHelloAgain;
      if Inv(State()) && Keyed(State()) && (newWindow || !wait.Idle?) {
        ReboundKeeps(State(), newWindow, rnd);
      }
      if newWindow {
        handshakeRnd := rnd;
        StartHelloWait(RebindHelloAgain, cur);
      } else {
        wait := RebindHelloAgain;
      }
      SendHelloAgain();
    }

    method CheckHelloSend(rnd: nat)
      modifies this
      ensures State() == HelloSent(old(State()), rnd)
      ensures Inv(old(State())) ==>
        && Inv(State()) && SameWindow(old(State()), State())
        && |out| == |old(out)| + (if HelloDue(old(State())) then 1 else 0)
    {
      hide SaidHelloAgain, SaidImFriend, Rebound, BeganPrimary, Inv, SameWindow;
      if Inv(State()) {
        HelloSentKeeps(State(), rnd);
        HelloSentSends(State(), rnd);
      }
      if !plan.connect || plan.disconnect {
        return;
      }
      var interval := Max(rtt, 1000) * 2;
      if Abs(cur - clocks.sentHello) <= interval {
        return;
      }
      var now := cur;
      match wait {
        case Idle =>
          if plan.soft && session.token != 0 {
            SendRebindHelloAgain(true, rnd);
          } else {
            BeginPrimaryHello(rnd);
          }
        case PrimaryHelloCold => SendHello();
        case PrimaryHelloNewSession => SendHello();
        case PrimaryImFriendSent => SendImFriend();
        case RebindHelloAgain => SendHelloAgain();
      }
      clocks := clocks.(sentHello := now);
    }

    method CheckOfflineReconnect(rnd: nat)
      modifies this
      ensures State() == OfflineChecked(old(State()), rnd)
      ensures Inv(old(State())) ==>
        && Inv(State()) && SameWindow(old(State()), State())
        && (OfflineDue(old(State())) ==> session.token != 0 && wait.RebindHelloAgain?)
    {
      hide Rebound, Inv, SameWindow;
      if Inv(State()) {
        OfflineKeeps(State(), rnd);
      }
      var throttle := Clamp(rtt + 50, 200, 1500);
      var waitingRebind := wait.RebindHelloAgain?;
      var staleAuthorized := authorized && !plan.connect && Abs(cur - clocks.online) > OFFLINE_BASE_MS + rtt;
      if !waitingRebind && !staleAuthorized {
        return;
      }
      if Abs(cur - clocks.sentHello) <= throttle {
        return;
      }
      if session.token == 0 {
        auth := Connected;
        authorized := false;
        plan := plan.(connect := true, soft := false);
        clocks := clocks.(sentHello := NEVER_SENT_MS);
        plan := plan.(newSession := true);
        wait := Idle;
        return;
      }
      var now := cur;
      auth := Offline;
      SendRebindHelloAgain(!waitingRebind, rnd);
      clocks := clocks.(sentHello := now);
    }

    method CheckReconnectTimeout()
      modifies `clocks, `plan, `wait
      ensures State() == TimeoutChecked(old(State()))
      ensures Inv(old(State())) ==>
        && Inv(State()) && SameWindow(old(State()), State())
        && (!wait.Idle? ==> cur - clocks.windowStart <= RECONNECT_THROTTLE_MS)
        && (clocks.recreated != old(clocks).recreated ==> cur - old(clocks).recreated > RECONNECT_THROTTLE_MS)
    {
      hide Inv, SameWindow;
      if Inv(State()) {
        TimeoutKeeps(State());
      }
      if !wait.Idle?
        && Abs(cur - clocks.windowStart) > RECONNECT_WAITING_MS
        && Abs(cur - clocks.recreated) > RECONNECT_THROTTLE_MS
      {
        var timedOut := wait;
        var soft := timedOut.RebindHelloAgain? && session.token != 0;
        clocks := clocks.(recreated := cur);
        plan := plan.(soft := soft, disconnect := true, connect := true);
        if !soft && !timedOut.PrimaryHelloCold? {
          plan := plan.(newSession := true);
        }
        wait := Idle;
        clocks := clocks.(windowStart := 0);
        if !soft {
          clocks := clocks.(sentHello := NEVER_SENT_MS);
        }
      }
    }

    /** Afterwards a client that is neither authorized nor told to connect has heard from the server lately. */
    method CheckDeadZone()
      modifies `plan
      ensures State() == DeadZoneChecked(old(State()))
      ensures Inv(old(State())) ==> Inv(State()) && SameWindow(old(State()), State())
      ensures !authorized && !plan.connect ==> Abs(cur - clocks.online) <= DEAD_ZONE_MS
    {
      hide Inv, SameWindow;
      if Inv(State()) {
        EndKeeps(State());
      }
      if !authorized && !plan.connect && Abs(cur - clocks.online) > DEAD_ZONE_MS {
        plan := plan.(soft := false);
        plan := plan.(disconnect := true);
        plan := plan.(connect := true);
      }
    }

    /** A soft reconnect keeps the session for the next hello. */
    method DoForceDisconnect()
      modifies `clocks, `wait, `session, `authorized, `plan
      ensures State() == Disconnected(old(State()))
      ensures Inv(old(State())) ==> Inv(State()) && (plan.soft ==> session == old(session) && Keyed(State()))
      ensures wait.Idle? && !authorized && !plan.disconnect
    {
      hide Inv, Keyed;
      if Inv(State()) {
        EndKeeps(State());
      }
      if !plan.soft {
        FullReset();
      }
      authorized := false;
      plan := plan.(disconnect := false);
      wait := Idle;
    }

    /** The tail of a tick. */
    method TransportReconnectTailTick(rnd: nat)
      modifies this
      ensures State() == TailDone(old(State()), rnd)
      ensures Inv(old(State())) ==>
        && Inv(State()) && SameWindow(old(State()), State())
        && (!wait.Idle? ==> cur - clocks.windowStart <= RECONNECT_THROTTLE_MS)
    {
      hide HelloSent, OfflineChecked, TimeoutChecked, DeadZoneChecked, Disconnected, Inv, SameWindow;
      if Inv(State()) {
        TailKeeps(State(), rnd);
      }
      CheckHelloSend(rnd);
      CheckOfflineReconnect(rnd);
      CheckReconnectTimeout();
      CheckDeadZone();
      if plan.disconnect {
        DoForceDisconnect();
      }
    }

    /** An accepted answer with a token gives the keys of that answer, and is replied to twice. */
    method OnWhoAreYou(at: int, peer: Peer)
      modifies this
      ensures State() == WhoAreYouTaken(old(State()), at, peer)
      ensures Inv(old(State())) && cur <= at ==>
        (Inv(State()) <==> !(TakesWhoAreYou(old(State()), peer) && peer.serverToken == 0))
      ensures Inv(old(State())) && cur <= at && TakesWhoAreYou(old(State()), peer) && peer.serverToken != 0 ==>
        var friend := ImFriend(peer.serverToken, Derived(peer.serverToken, peer.rnd));
        && Keyed(State()) && session.token == peer.serverToken && session.rnd == peer.rnd
        && out == old(out) + [friend, friend]
    {
      hide SaidImFriend, Inv, Keyed;
      if Inv(State()) && cur <= at {
        WhoAreYouKeeps(State(), at, peer);
      }
      if !wait.AllowsWhoAreYou() || session.token != 0 {
        return;
      }
      if handshakeRnd != peer.rnd {
        return;
      }
      session := session.(token := peer.serverToken);
      session := session.(rnd := peer.rnd);
      session := session.(encodeKey := Some(Derived(session.token, session.rnd)));
      session := session.(decodeKey := Some(Derived(session.token, session.rnd)));
      session := session.(ack := Some(Derived(session.token, session.rnd)));
      clocks := clocks.(windowStart := at);
      wait := PrimaryImFriendSent;
      SendImFriend();
      SendImFriend();
    }

    /** A client becomes authorized here exactly when the packet answers the handshake in progress. */
    method OnFine(peer: Peer)
      modifies `plan, `auth, `authorized, `wait
      ensures State() == FineTaken(old(State()), peer)
      ensures Inv(old(State())) ==>
        && Inv(State()) && (authorized ==> Keyed(State()))
        && (authorized <==>
              old(authorized) || (old(wait).AllowsFine() && handshakeRnd == peer.rnd && peer.peerMixZero))
    {
      if Inv(State()) {
        FineKeeps(State(), peer);
      }
      if !wait.AllowsFine() {
        return;
      }
      if session.decodeKey.None? || handshakeRnd != peer.rnd || !peer.peerMixZero {
        return;
      }
      plan := plan.(connect := false);
      auth := AuthDone;
      authorized := true;
      wait := Idle;
    }

    /** An accepted demand ends the session, and the next hello opens a new one. */
    method OnWantNewHello(peer: Peer)
      modifies this
      ensures State() == WantNewHelloTaken(old(State()), peer)
      ensures Inv(old(State())) ==>
        && Inv(State())
        && (TakesWantNewHello(old(State()), peer) && HelloDue(State()) ==>
              !authorized && forall rnd :: HelloSent(State(), rnd).wait.PrimaryHelloNewSession?)
    {
      hide Inv, HelloSent, HelloDue;
      if Inv(State()) {
        ghost var c := State();
        WantNewHelloKeeps(c, peer, 0);
        forall rnd: nat
          ensures TakesWantNewHello(c, peer) && HelloDue(WantNewHelloTaken(c, peer)) ==>
            HelloSent(WantNewHelloTaken(c, peer), rnd).wait.PrimaryHelloNewSession?
        {
          WantNewHelloKeeps(c, peer, rnd);
        }
      }
      if !wait.RebindHelloAgain? || handshakeRnd != peer.rnd || peer.serverToken != 0 || !peer.peerMixZero {
        return;
      }
      FullReset();
      clocks := clocks.(sentHello := NEVER_SENT_MS);
      auth := Connected;
      authorized := false;
      plan := plan.(connect := true);
      plan := plan.(soft := false);
      plan := plan.(newSession := true);
      wait := Idle;
    }

    /** Heeded at most once in 700 ms; the session stays, and the next hello names its token. */
    method OnNeedHelloAgain(at: int)
      modifies `clocks, `plan, `wait
      ensures State() == NeedHelloAgainTaken(old(State()), at)
      ensures clocks.needHelloAgain != old(clocks).needHelloAgain ==>
        clocks.needHelloAgain == at && Abs(at - old(clocks).needHelloAgain) > NEED_HELLO_AGAIN_THROTTLE_MS
      ensures Inv(old(State())) ==>
        && Inv(State())
        && (TakesNeedHelloAgain(old(State()), at) && HelloDue(State()) ==>
              forall rnd :: HelloSent(State(), rnd).out == out + [HelloAgain(session.token)])
    {
      hide Inv, HelloSent, HelloDue;
      if Inv(State()) {
        ghost var c := State();
        NeedHelloAgainKeeps(c, at, 0);
        forall rnd: nat
          ensures TakesNeedHelloAgain(c, at) && HelloDue(NeedHelloAgainTaken(c, at)) ==>
            HelloSent(NeedHelloAgainTaken(c, at), rnd).out == c.out + [HelloAgain(c.session.token)]
        {
          NeedHelloAgainKeeps(c, at, rnd);
        }
      }
      if !authorized {
        return;
      }
      if Abs(at - clocks.needHelloAgain) > NEED_HELLO_AGAIN_THROTTLE_MS {
        clocks := clocks.(needHelloAgain := at);
        plan := plan.(connect := true);
        plan := plan.(soft := true);
        if wait.RebindHelloAgain? {
          clocks := clocks.(sentHello := NEVER_SENT_MS);
          return;
        }
        wait := Idle;
        clocks := clocks.(windowStart := 0);
        clocks := clocks.(sentHello := NEVER_SENT_MS);
      }
    }

    /** Every event of a run, so a run of the object is a run of the state machine. */
    method Take(e: Event)
      modifies this
      ensures State() == Step(old(State()), e)
      ensures Inv(old(State())) && Legal(old(State()), e) ==> Inv(State())
    {
      hide Inv, Legal, WhoAreYouTaken, FineTaken, WantNewHelloTaken, NeedHelloAgainTaken, TailDone;
      if Inv(State()) && Legal(State(), e) {
        StepKeeps(State(), e);
      }
      match e {
        case Loop(t) => cur := t;
        case Packet(at) => clocks := clocks.(online := at);
        case WhoAreYou(at, peer) => OnWhoAreYou(at, peer);
        case Fine(peer) => OnFine(peer);
        case WantNewHello(peer) => OnWantNewHello(peer);
        case WrongHello =>
          if wait.AllowsWhoAreYou() || wait.PrimaryImFriendSent? {
            auth := Connected;
          }
        case NeedHelloAgain(at) => OnNeedHelloAgain(at);
        case Ping(tripDelay) =>
          if authorized {
            rtt := tripDelay;
            plan := plan.(connect := plan.connect && !auth.AuthDone?);
          }
        case Tail(rnd) => TransportReconnectTailTick(rnd);
        case FirstConnected => plan := plan.(wasConnected := true);
        case SocketBound => plan := plan.(disconnect := false);
        case Disconnect => AppDisconnect();
      }
    }

    method AppDisconnect()
      modifies `plan, `authorized, `auth, `wait
      ensures State() == AppDisconnected(old(State()))
    {
      plan := plan.(connect := false, disconnect := true);
      authorized := false;
      auth := Base;
      plan := plan.(newSession := false);
      wait := Idle;
    }
  }
}
