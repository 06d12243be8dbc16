/**
 The handshake and reconnect state machine (src/client/protocol_connect.rs,
 src/client/protocol_recv_state.rs, src/client/protocol_recv_handlers.rs, src/client/socket_lifecycle.rs).
 A derived key stands for the token and random value it was derived from.
 */
module Handshake {
  import opened Bytes
  import opened Numbers

  const RECONNECT_WAITING_MS: int := 7000
  const RECONNECT_THROTTLE_MS: int := 15000
  const OFFLINE_BASE_MS: int := 2300
  const DEAD_ZONE_MS: int := 5000
  const NEED_HELLO_AGAIN_THROTTLE_MS: int := 700
  const NEVER_SENT_MS: int := -0x4000_0000_0000_0000

  datatype HelloWait = Idle | PrimaryHelloCold | PrimaryHelloNewSession | PrimaryImFriendSent | RebindHelloAgain {
    predicate AllowsWhoAreYou() {
      PrimaryHelloCold? || PrimaryHelloNewSession?
    }

    predicate AllowsFine() {
      PrimaryImFriendSent? || RebindHelloAgain?
    }
  }

  datatype AuthStatus = Base | Connected | AuthDone | Offline

  /** What the session keys and the acknowledgement session value are computed from. */
  datatype Derived = Derived(token: nat, rnd: nat)

  /** Handshake packets as sent. */
  datatype Out = Hello | HelloAgain(token: nat) | ImFriend(token: nat, key: Derived)

  /** The fields of a decoded handshake packet that decisions depend on. */
  datatype Peer = Peer(rnd: nat, serverToken: nat, peerMixZero: bool)

  /** The server's token and the random value of the session, and what was derived from them. */
  datatype Session = Session(
    token: nat, rnd: nat, encodeKey: Option<Derived>, decodeKey: Option<Derived>, ack: Option<Derived>)

  /** What the connection is to do next. */
  datatype Plan = Plan(connect: bool, disconnect: bool, soft: bool, newSession: bool, wasConnected: bool)

  datatype Clocks = Clocks(sentHello: int, windowStart: int, recreated: int, needHelloAgain: int, online: int)

  /** `cur` is the time of the loop iteration in progress. */
  datatype Client = Client(
    wait: HelloWait, auth: AuthStatus, authorized: bool, plan: Plan, session: Session, handshakeRnd: nat,
    clocks: Clocks, rtt: int, cur: int, out: seq<Out>)

  function NewClient(): Client {
    Client(Idle, Base, false, Plan(true, false, false, false, false), Session(0, 0, None, None, None), 0,
           Clocks(NEVER_SENT_MS, 0, NEVER_SENT_MS, NEVER_SENT_MS, 0), 0, 0, [])
  }

  // Sending.

  function Reset(c: Client): Client {
    c.(clocks := c.clocks.(online := 0, sentHello := NEVER_SENT_MS), wait := Idle, session := c.session.(ack := None))
  }

  function PrimaryWait(c: Client): HelloWait {
    if c.plan.newSession || c.plan.wasConnected || c.session.token != 0 then PrimaryHelloNewSession
    else PrimaryHelloCold
  }

  lemma {:induction false} PrimaryWaits(c: Client)
    ensures PrimaryWait(c).AllowsWhoAreYou()
  {
  }

  function BeganPrimary(c: Client, rnd: nat): Client {
    var r := Reset(c);
    r.(plan := c.plan.(soft := false, newSession := false), session := r.session.(token := 0), authorized := false,
       handshakeRnd := rnd, clocks := r.clocks.(windowStart := c.cur), wait := PrimaryWait(c), out := c.out + [Hello])
  }

  /** HelloAgain needs a token, ImFriend a token and a key. */
  function SaidHelloAgain(c: Client): Client {
    if c.session.token == 0 then c else c.(out := c.out + [HelloAgain(c.session.token)])
  }

  function SaidImFriend(c: Client): Client {
    if c.session.token == 0 || c.session.encodeKey.None? then c
    else c.(out := c.out + [ImFriend(c.session.token, c.session.encodeKey.value)])
  }

  function NewWindow(c: Client, rnd: nat): Client {
    c.(handshakeRnd := rnd, clocks := c.clocks.(windowStart := c.cur), wait := RebindHelloAgain)
  }

  function Rebound(c: Client, newWindow: bool, rnd: nat): Client {
    SaidHelloAgain(if newWindow then NewWindow(c, rnd) else c.(wait := RebindHelloAgain))
  }

  // The tail of a tick.

  predicate HelloDue(c: Client) {
    c.plan.connect && !c.plan.disconnect && Abs(c.cur - c.clocks.sentHello) > Max(c.rtt, 1000) * 2
  }

  function HelloSent(c: Client, rnd: nat): Client {
    if !HelloDue(c) then c
    else
      var c1 :=
        match c.wait
        case Idle => if c.plan.soft && c.session.token != 0 then Rebound(c, true, rnd) else BeganPrimary(c, rnd)
        case PrimaryHelloCold => c.(out := c.out + [Hello])
        case PrimaryHelloNewSession => c.(out := c.out + [Hello])
        case PrimaryImFriendSent => SaidImFriend(c)
        case RebindHelloAgain => SaidHelloAgain(c);
      c1.(clocks := c1.clocks.(sentHello := c.cur))
  }

  predicate OfflineDue(c: Client) {
    && (c.wait.RebindHelloAgain?
        || (c.authorized && !c.plan.connect && Abs(c.cur - c.clocks.online) > OFFLINE_BASE_MS + c.rtt))
    && Abs(c.cur - c.clocks.sentHello) > Clamp(c.rtt + 50, 200, 1500)
  }

  function OfflineChecked(c: Client, rnd: nat): Client {
    if !OfflineDue(c) then c
    else if c.session.token == 0 then
      c.(auth := Connected, authorized := false, plan := c.plan.(connect := true, soft := false, newSession := true),
         clocks := c.clocks.(sentHello := NEVER_SENT_MS), wait := Idle)
    else
      var c1 := Rebound(c.(auth := Offline), !c.wait.RebindHelloAgain?, rnd);
      c1.(clocks := c1.clocks.(sentHello := c.cur))
  }

  predicate TimedOut(c: Client) {
    && !c.wait.Idle? && Abs(c.cur - c.clocks.windowStart) > RECONNECT_WAITING_MS
    && Abs(c.cur - c.clocks.recreated) > RECONNECT_THROTTLE_MS
  }

  function TimeoutChecked(c: Client): Client {
    if !TimedOut(c) then c
    else
      var soft := c.wait.RebindHelloAgain? && c.session.token != 0;
      c.(plan := c.plan.(
           soft := soft, disconnect := true, connect := true,
           newSession := c.plan.newSession || (!soft && !c.wait.PrimaryHelloCold?)),
         wait := Idle,
         clocks := c.clocks.(
           recreated := c.cur, windowStart := 0, sentHello := if soft then c.clocks.sentHello else NEVER_SENT_MS))
  }

  function DeadZoneChecked(c: Client): Client {
    if !c.authorized && !c.plan.connect && Abs(c.cur - c.clocks.online) > DEAD_ZONE_MS
    then c.(plan := c.plan.(soft := false, disconnect := true, connect := true))
    else c
  }

  function Disconnected(c: Client): Client {
    (if c.plan.soft then c else Reset(c)).(authorized := false, plan := c.plan.(disconnect := false), wait := Idle)
  }

  function TailDone(c: Client, rnd: nat): Client {
    var c1 := DeadZoneChecked(TimeoutChecked(OfflineChecked(HelloSent(c, rnd), rnd)));
    if c1.plan.disconnect then Disconnected(c1) else c1
  }

  // Packets.

  predicate TakesWhoAreYou(c: Client, peer: Peer) {
    c.wait.AllowsWhoAreYou() && c.session.token == 0 && c.handshakeRnd == peer.rnd
  }

  /** The session of an answer: both keys and the acknowledgement value come from its token and random value. */
  function Answered(c: Client, at: int, peer: Peer): Client {
    var keys := Some(Derived(peer.serverToken, peer.rnd));
    c.(session := Session(peer.serverToken, peer.rnd, keys, keys, keys), clocks := c.clocks.(windowStart := at),
       wait := PrimaryImFriendSent)
  }

  function WhoAreYouTaken(c: Client, at: int, peer: Peer): Client {
    if !TakesWhoAreYou(c, peer) then c
    else
      SaidImFriend(SaidImFriend(Answered(c, at, peer)))
  }

  predicate TakesFine(c: Client, peer: Peer) {
    c.wait.AllowsFine() && c.session.decodeKey.Some? && c.handshakeRnd == peer.rnd && peer.peerMixZero
  }

  function FineTaken(c: Client, peer: Peer): Client {
    if !TakesFine(c, peer) then c
    else c.(plan := c.plan.(connect := false), auth := AuthDone, authorized := true, wait := Idle)
  }

  predicate TakesWantNewHello(c: Client, peer: Peer) {
    c.wait.RebindHelloAgain? && c.handshakeRnd == peer.rnd && peer.serverToken == 0 && peer.peerMixZero
  }

  function WantNewHelloTaken(c: Client, peer: Peer): Client {
    if !TakesWantNewHello(c, peer) then c
    else Reset(c).(
      auth := Connected, authorized := false, plan := c.plan.(connect := true, soft := false, newSession := true))
  }

  /** Arrives encrypted, so it is only read while authorized. */
  predicate TakesNeedHelloAgain(c: Client, at: int) {
    c.authorized && Abs(at - c.clocks.needHelloAgain) > NEED_HELLO_AGAIN_THROTTLE_MS
  }

  function NeedHelloAgainTaken(c: Client, at: int): Client {
    if !TakesNeedHelloAgain(c, at) then c
    else
      var rebinding := c.wait.RebindHelloAgain?;
      c.(plan := c.plan.(connect := true, soft := true), wait := if rebinding then RebindHelloAgain else Idle,
         clocks := c.clocks.(
           needHelloAgain := at, sentHello := NEVER_SENT_MS,
           windowStart := if rebinding then c.clocks.windowStart else 0))
  }

  function PingTaken(c: Client, tripDelay: int): Client {
    if !c.authorized then c
    else c.(rtt := tripDelay, plan := c.plan.(connect := c.plan.connect && !c.auth.AuthDone?))
  }

  function AppDisconnected(c: Client): Client {
    c.(plan := c.plan.(connect := false, disconnect := true, newSession := false), authorized := false, auth := Base,
       wait := Idle)
  }

  datatype Event =
    | Loop(cur: int)
    | Packet(at: int)
    | WhoAreYou(at: int, peer: Peer)
    | Fine(peer: Peer)
    | WantNewHello(peer: Peer)
    | WrongHello
    | NeedHelloAgain(at: int)
    | Ping(rtt: int)
    | Tail(rnd: nat)
    | FirstConnected
    | SocketBound
    | Disconnect

  function Step(c: Client, e: Event): Client {
    match e
    case Loop(t) => c.(cur := t)
    case Packet(at) => c.(clocks := c.clocks.(online := at))
    case WhoAreYou(at, peer) => WhoAreYouTaken(c, at, peer)
    case Fine(peer) => FineTaken(c, peer)
    case WantNewHello(peer) => WantNewHelloTaken(c, peer)
    case WrongHello => if c.wait.AllowsWhoAreYou() || c.wait.PrimaryImFriendSent? then c.(auth := Connected) else c
    case NeedHelloAgain(at) => NeedHelloAgainTaken(c, at)
    case Ping(tripDelay) => PingTaken(c, tripDelay)
    case Tail(rnd) => TailDone(c, rnd)
    case FirstConnected => c.(plan := c.plan.(wasConnected := true))
    case SocketBound => c.(plan := c.plan.(disconnect := false))
    case Disconnect => AppDisconnected(c)
  }

  // Invariants.

  /** Keys and acknowledgement session are those of the current token and random value. */
  predicate Keyed(c: Client) {
    var s := c.session;
    s.token != 0 && s.encodeKey == s.decodeKey == s.ack == Some(Derived(s.token, s.rnd))
  }

  /**
   An authorized client, one that waits for Fine, and one that is to reconnect softly has its keys; a client
   in its first handshake is not authorized, and has no token until the server answers.
   */
  predicate KeysOk(c: Client) {
    && (c.authorized || c.wait.AllowsFine() || c.plan.soft ==> Keyed(c))
    && (c.wait.AllowsWhoAreYou() ==> c.session.token == 0 && !c.authorized && !c.plan.soft)
    && (c.wait.PrimaryImFriendSent? ==> !c.authorized)
  }

  /** A waiting window began no earlier than the last socket recreation. */
  predicate WindowOk(c: Client) {
    (!c.wait.Idle? ==> c.clocks.recreated <= c.clocks.windowStart) && c.clocks.recreated <= c.cur
  }

  predicate OutOk(o: Out) {
    match o
    case Hello => true
    case HelloAgain(token) => token != 0
    case ImFriend(token, key) => token != 0 && key.token == token
  }

  /** No packet ever named a token the client did not have, or was sealed under keys of another session. */
  ghost predicate OutsOk(out: seq<Out>) {
    forall i :: 0 <= i < |out| ==> OutOk(out[i])
  }

  ghost predicate Inv(c: Client) {
    KeysOk(c) && WindowOk(c) && OutsOk(c.out)
  }

  lemma {:induction false} SaidKeeps(c: Client)
    requires OutsOk(c.out)
    ensures SaidHelloAgain(c) == c.(out := SaidHelloAgain(c).out) && OutsOk(SaidHelloAgain(c).out)
    ensures SaidImFriend(c) == c.(out := SaidImFriend(c).out)
    ensures
      var s := c.session;
      (s.encodeKey.Some? && s.token != 0 ==> s.encodeKey.value.token == s.token) ==> OutsOk(SaidImFriend(c).out)
  {
  }

  /** A window is kept by resends; only an idle client opens one, and it opens now. */
  predicate SameWindow(c: Client, c': Client) {
    && c'.cur == c.cur && (c'.authorized ==> c.authorized)
    && if c.wait.Idle? then !c'.wait.Idle? ==> c'.clocks.windowStart == c.cur
       else !c'.wait.Idle? ==> c'.wait == c.wait && c'.clocks.windowStart == c.clocks.windowStart
  }

  /** A reset closes the window; what it forgets is not needed by a client that is not to keep its session. */
  lemma {:induction false} ResetKeeps(c: Client)
    requires Inv(c)
    ensures Inv(Reset(c)) <==> !c.authorized && !c.plan.soft
  {
    hide OutsOk;
  }

  /** A primary handshake starts from nothing: no token, no authorization, a window that opens now. */
  lemma {:induction false} BeganKeeps(c: Client, rnd: nat)
    requires Inv(c)
    ensures Inv(BeganPrimary(c, rnd)) && BeganPrimary(c, rnd).wait.AllowsWhoAreYou()
    ensures BeganPrimary(c, rnd).wait.PrimaryHelloCold? ==>
      !c.plan.newSession && !c.plan.wasConnected && c.session.token == 0
  {
    hide OutsOk;
    HelloIsOk(c.out);
  }

  /** Rebinding keeps the session and names its token; it needs a session, and a window that is open or opens now. */
  lemma {:induction false} ReboundKeeps(c: Client, newWindow: bool, rnd: nat)
    requires Inv(c) && Keyed(c) && (newWindow || !c.wait.Idle?)
    ensures
      var c' := Rebound(c, newWindow, rnd);
      && Inv(c') && c'.session == c.session && c'.authorized == c.authorized
      && c'.out == c.out + [HelloAgain(c.session.token)]
  {
    hide OutsOk;
    SaidKeeps(NewWindow(c, rnd));
    SaidKeeps(c.(wait := RebindHelloAgain));
  }

  /** When a hello is due exactly one packet goes out, and none otherwise. */
  lemma {:induction false} HelloSentSends(c: Client, rnd: nat)
    requires Inv(c)
    ensures |HelloSent(c, rnd).out| == |c.out| + (if HelloDue(c) then 1 else 0)
    ensures HelloDue(c) ==> HelloSent(c, rnd).clocks.sentHello == c.cur
  {
    hide OutsOk;
  }

  lemma {:induction false} HelloSentKeeps(c: Client, rnd: nat)
    requires Inv(c)
    ensures Inv(HelloSent(c, rnd)) && SameWindow(c, HelloSent(c, rnd))
    ensures HelloSent(c, rnd).clocks.recreated == c.clocks.recreated
    ensures !c.wait.Idle? ==> HelloSent(c, rnd).wait == c.wait
  {
    hide OutsOk;
    SaidKeeps(c);
    SaidKeeps(NewWindow(c, rnd));
    HelloIsOk(c.out);
  }

  lemma {:induction false} HelloIsOk(out: seq<Out>)
    requires OutsOk(out)
    ensures OutsOk(out + [Hello])
  {
  }

  /** The offline check never takes its branch for a zero token. */
  lemma {:induction false} OfflineKeeps(c: Client, rnd: nat)
    requires Inv(c)
    ensures Inv(OfflineChecked(c, rnd)) && SameWindow(c, OfflineChecked(c, rnd))
    ensures OfflineDue(c) ==> c.session.token != 0 && OfflineChecked(c, rnd).wait.RebindHelloAgain?
    ensures OfflineChecked(c, rnd).clocks.recreated == c.clocks.recreated && OfflineChecked(c, rnd).session == c.session
  {
    hide OutsOk;
    SaidKeeps(c.(auth := Offline, wait := RebindHelloAgain));
    SaidKeeps(NewWindow(c.(auth := Offline), rnd));
  }

  /** A window that outlives the check is at most 15 seconds old; sockets are recreated further apart than that. */
  lemma {:induction false} TimeoutKeeps(c: Client)
    requires Inv(c)
    ensures Inv(TimeoutChecked(c)) && SameWindow(c, TimeoutChecked(c))
    ensures !TimeoutChecked(c).wait.Idle? ==> c.cur - TimeoutChecked(c).clocks.windowStart <= RECONNECT_THROTTLE_MS
    ensures TimeoutChecked(c).clocks.recreated != c.clocks.recreated ==>
      TimeoutChecked(c).clocks.recreated == c.cur && c.cur - c.clocks.recreated > RECONNECT_THROTTLE_MS
  {
    hide OutsOk;
  }

  lemma {:induction false} EndKeeps(c: Client)
    requires Inv(c)
    ensures Inv(DeadZoneChecked(c)) && SameWindow(c, DeadZoneChecked(c))
    ensures Inv(Disconnected(c)) && Disconnected(c).wait.Idle? && !Disconnected(c).authorized && Disconnected(c).cur
      == c.cur
    ensures c.plan.soft ==> Keyed(Disconnected(c))
    ensures DeadZoneChecked(c).clocks.recreated == Disconnected(c).clocks.recreated == c.clocks.recreated
    ensures DeadZoneChecked(c).wait == c.wait && DeadZoneChecked(c).clocks.windowStart == c.clocks.windowStart
  {
    hide OutsOk;
  }

  /**
   At the end of every tick a window that is still open is at most 15 seconds old, and it is the window
   that was open before or one that was opened in this tick.
   */
  lemma {:induction false} TailKeeps(c: Client, rnd: nat)
    requires Inv(c)
    ensures Inv(TailDone(c, rnd)) && SameWindow(c, TailDone(c, rnd))
    ensures !TailDone(c, rnd).wait.Idle? ==> c.cur - TailDone(c, rnd).clocks.windowStart <= RECONNECT_THROTTLE_MS
    ensures TailDone(c, rnd).clocks.recreated != c.clocks.recreated ==>
      TailDone(c, rnd).clocks.recreated == c.cur && c.cur - c.clocks.recreated > RECONNECT_THROTTLE_MS
  {
    hide Inv, HelloSent, OfflineChecked, TimeoutChecked, DeadZoneChecked, Disconnected;
    var c1 := HelloSent(c, rnd);
    var c2 := OfflineChecked(c1, rnd);
    var c3 := TimeoutChecked(c2);
    HelloSentKeeps(c, rnd);
    OfflineKeeps(c1, rnd);
    OfflineKeepsWait(c, c1, rnd);
    TimeoutKeeps(c2);
    EndKeeps(c3);
    EndKeeps(DeadZoneChecked(c3));
  }

  /** Nothing closes a window before the timeout check. */
  lemma {:induction false} OfflineKeepsWait(c: Client, c1: Client, rnd: nat)
    requires Inv(c1) && SameWindow(c, c1) && (!c.wait.Idle? ==> c1.wait == c.wait)
    ensures SameWindow(c, OfflineChecked(c1, rnd)) && (!c.wait.Idle? ==> OfflineChecked(c1, rnd).wait == c.wait)
  {
    hide OutsOk;
    OfflineKeeps(c1, rnd);
  }

  /**
   From an accepted answer on the keys are those of that answer; the invariant survives exactly when its
   token is not zero.
   */
  lemma {:induction false} WhoAreYouKeeps(c: Client, at: int, peer: Peer)
    requires Inv(c) && c.cur <= at
    ensures Inv(WhoAreYouTaken(c, at, peer)) <==> !(TakesWhoAreYou(c, peer) && peer.serverToken == 0)
    ensures TakesWhoAreYou(c, peer) <==> c.wait.AllowsWhoAreYou() && c.handshakeRnd == peer.rnd
    ensures WhoAreYouTaken(c, at, peer).cur == c.cur && WhoAreYouTaken(c, at, peer).authorized == c.authorized
    ensures TakesWhoAreYou(c, peer) && peer.serverToken != 0 ==>
      var friend := ImFriend(peer.serverToken, Derived(peer.serverToken, peer.rnd));
      && Keyed(WhoAreYouTaken(c, at, peer)) && WhoAreYouTaken(c, at, peer).out == c.out + [friend, friend]
      && WhoAreYouTaken(c, at, peer).session.token == peer.serverToken
      && WhoAreYouTaken(c, at, peer).session.rnd == peer.rnd
  {
    hide OutsOk;
    var c1 := Answered(c, at, peer);
    SaidKeeps(c1);
    SaidKeeps(SaidImFriend(c1));
  }

  /** Only Fine authorizes: in answer to the handshake in progress, with the keys in place. */
  lemma {:induction false} FineKeeps(c: Client, peer: Peer)
    requires Inv(c)
    ensures Inv(FineTaken(c, peer)) && FineTaken(c, peer).cur == c.cur
    ensures FineTaken(c, peer) != c <==> c.wait.AllowsFine() && c.handshakeRnd == peer.rnd && peer.peerMixZero
    ensures FineTaken(c, peer) != c ==> FineTaken(c, peer).authorized && Keyed(FineTaken(c, peer))
    ensures FineTaken(c, peer).authorized <==>
      c.authorized || (c.wait.AllowsFine() && c.handshakeRnd == peer.rnd && peer.peerMixZero)
  {
    hide OutsOk;
  }

  /** A server that wants a new hello gets one: the next hello opens a handshake for a new session. */
  lemma {:induction false} WantNewHelloKeeps(c: Client, peer: Peer, rnd: nat)
    requires Inv(c)
    ensures Inv(WantNewHelloTaken(c, peer))
    ensures
      var c' := WantNewHelloTaken(c, peer);
      TakesWantNewHello(c, peer) ==>
        !c'.authorized && (HelloDue(c') ==> HelloSent(c', rnd).wait.PrimaryHelloNewSession?)
  {
    hide OutsOk;
  }

  /**
   A request to say hello again is heeded at most once in 700 ms. The client stays authorized with the
   keys it has, and the next hello names its token.
   */
  lemma {:induction false} NeedHelloAgainKeeps(c: Client, at: int, rnd: nat)
    requires Inv(c)
    ensures
      var c' := NeedHelloAgainTaken(c, at);
      && Inv(c') && c'.authorized == c.authorized && c'.session == c.session
      && (c'.clocks.needHelloAgain != c.clocks.needHelloAgain ==>
            c'.clocks.needHelloAgain == at && Abs(at - c.clocks.needHelloAgain) > NEED_HELLO_AGAIN_THROTTLE_MS)
      && (TakesNeedHelloAgain(c, at) && HelloDue(c') ==>
            HelloSent(c', rnd).out == c.out + [HelloAgain(c.session.token)])
  {
    hide OutsOk;
  }

  lemma {:induction false} OthersKeep(c: Client, e: Event)
    requires Inv(c) && !e.Loop? && !e.WhoAreYou? && !e.Fine? && !e.Tail?
    ensures Inv(Step(c, e)) && Step(c, e).cur == c.cur && (Step(c, e).authorized ==> c.authorized)
  {
    hide OutsOk;
  }

  // Whole runs.

  /**
   Time does not run backwards, packets come after the loop iteration they are read in, and a server token
   is not zero.
   */
  predicate Legal(c: Client, e: Event) {
    match e
    case Loop(t) => c.cur <= t
    case WhoAreYou(at, peer) => c.cur <= at && peer.serverToken != 0
    case _ => true
  }

  lemma {:induction false} StepKeeps(c: Client, e: Event)
    requires Inv(c) && Legal(c, e)
    ensures Inv(Step(c, e))
    ensures Step(c, e).authorized && !c.authorized ==>
      e.Fine? && c.wait.AllowsFine() && c.handshakeRnd == e.peer.rnd && Keyed(Step(c, e))
  {
    hide OutsOk, TailDone, WhoAreYouTaken, FineTaken;
    match e
    case Loop(t) =>
    case WhoAreYou(at, peer) => WhoAreYouKeeps(c, at, peer);
    case Fine(peer) => FineKeeps(c, peer);
    case Tail(rnd) => TailKeeps(c, rnd);
    case _ => OthersKeep(c, e);
  }

  function Run(c: Client, events: seq<Event>): Client
    decreases |events|
  {
    if events == [] then c else Run(Step(c, events[0]), events[1..])
  }

  predicate LegalRun(c: Client, events: seq<Event>)
    decreases |events|
  {
    events != [] ==> Legal(c, events[0]) && LegalRun(Step(c, events[0]), events[1..])
  }

  lemma {:induction false} RunKeeps(c: Client, events: seq<Event>)
    requires Inv(c) && LegalRun(c, events)
    ensures Inv(Run(c, events))
    decreases |events|
  {
    hide Inv, Step, Legal;
    if events != [] {
      StepKeeps(c, events[0]);
      RunKeeps(Step(c, events[0]), events[1..]);
    }
  }

  lemma {:induction false} RunSplit(c: Client, events: seq<Event>, e: Event)
    requires LegalRun(c, events + [e])
    ensures LegalRun(c, events) && Legal(Run(c, events), e) && Run(c, events + [e]) == Step(Run(c, events), e)
    decreases |events|
  {
    hide Step, Legal;
    if events == [] {
      assert events + [e] == [e];
    } else {
      assert (events + [e])[0] == events[0] && (events + [e])[1..] == events[1..] + [e];
      RunSplit(Step(c, events[0]), events[1..], e);
    }
  }

  lemma {:induction false} NewClientInv()
    ensures Inv(NewClient())
  {
  }

  /** Every run from a new client keeps the session-key, window and packet invariants. */
  lemma {:induction false} SessionKeys(events: seq<Event>)
    requires LegalRun(NewClient(), events)
    ensures Inv(Run(NewClient(), events))
  {
    NewClientInv();
    RunKeeps(NewClient(), events);
  }

  /** After every tick of every run a window that is still open is at most 15 seconds old. */
  lemma {:induction false} BoundedWindow(events: seq<Event>, rnd: nat)
    requires LegalRun(NewClient(), events + [Tail(rnd)])
    ensures
      var c := Run(NewClient(), events + [Tail(rnd)]);
      !c.wait.Idle? ==>
        c.clocks.recreated <= c.clocks.windowStart && c.cur - c.clocks.windowStart <= RECONNECT_THROTTLE_MS
  {
    hide Inv, Step, Run, NewClient;
    RunSplit(NewClient(), events, Tail(rnd));
    SessionKeys(events);
    TailStep(Run(NewClient(), events), rnd);
  }

  lemma {:induction false} TailStep(c: Client, rnd: nat)
    requires Inv(c)
    ensures
      var c' := Step(c, Tail(rnd));
      !c'.wait.Idle? ==>
        c'.clocks.recreated <= c'.clocks.windowStart && c'.cur - c'.clocks.windowStart <= RECONNECT_THROTTLE_MS
  {
    hide TailDone;
    TailKeeps(c, rnd);
  }
}
