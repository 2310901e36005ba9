/** The direct UDP session of core/network_transport.h as a state machine. An endpoint polls, sends, connects and
    disconnects; what one poll does is cut into its actions: giving up, sending again, receiving one packet, and
    the checks of the clock at the end. Whether the transport takes a packet is part of the action. */
module SessionProtocol {
  import opened Outcomes
  import opened Words
  import opened PacketCodec
  import opened ReliableQueue

  datatype Address = Address(ipv4: u32, port: u16)

  datatype Role = Host | Client

  datatype Timing = Timing(retryInterval: nat, heartbeat: nat, liveness: nat, reconnect: nat)

  datatype State = Idle | Connecting | Connected | Reconnecting | Disconnected

  datatype LinkState = LinkConnected | LinkReconnecting | LinkDisconnected

  datatype Telemetry = Telemetry(sent: nat, received: nat, lost: nat, state: LinkState)

  datatype Session = Session(role: Role, state: State, remote: Option<Address>, pending: map<u32, Pending>, telemetry: Telemetry,
                             nextSequence: u32, helloSequence: u32, lastPeerReceive: nat, lastHeartbeatSend: nat,
                             reconnectStarted: nat, hasPeerReceiveTime: bool)

  datatype Outgoing = Outgoing(to: Address, packet: Packet)

  /** What an action does: the new state, what was sent and delivered, and whether it succeeded. */
  datatype Effect = Effect(session: Session, out: seq<Outgoing>, delivered: seq<Packet>, ok: bool)

  datatype Action =
    | Connect(remote: Address, now: nat, sends: bool)
    | GiveUp(now: nat)
    | Resend(now: nat, packets: seq<Packet>)
    | Receive(source: Address, packet: Packet, now: nat, sends: bool)
    | Tick(now: nat, sends: bool)
    | SendGameplay(packet: Packet, sends: bool)
    | Leave(now: nat, sends: bool)

  const NO_INPUT := RollbackInput(0, 0, 0)

  function Start(role: Role): Session {
    Session(role, Idle, None, map[], Telemetry(0, 0, 0, LinkDisconnected), 1, 0, 0, 0, 0, false)
  }

  function Control(kind: PacketKind, sequence: u32, ack: u32, timestamp: nat): Packet {
    Packet(kind, sequence, ack, 0, Clock(timestamp), NO_INPUT, [])
  }

  /** The 64-bit time stamp of a packet. */
  function Clock(now: nat): u64 {
    now % 0x1_0000_0000_0000_0000
  }

  predicate Elapsed(now: nat, since: nat, interval: nat) {
    now >= since && now - since >= interval
  }

  // ----- Transitions -----

  function Quiet(s: Session): Effect {
    Effect(s, [], [], true)
  }

  function Failed(s: Session): Effect {
    Effect(s, [], [], false)
  }

  function AsConnected(s: Session, now: nat): Session {
    s.(state := Connected, telemetry := s.telemetry.(state := LinkConnected), lastPeerReceive := now, lastHeartbeatSend := now,
       reconnectStarted := 0, hasPeerReceiveTime := true)
  }

  function AsDisconnected(s: Session): Session {
    s.(state := Disconnected, telemetry := s.telemetry.(state := LinkDisconnected), reconnectStarted := 0)
  }

  /** One more sequence number is used up. */
  function Numbered(s: Session): Session {
    s.(nextSequence := Wrap(s.nextSequence + 1))
  }

  function Sent(s: Session): Session {
    s.(telemetry := s.telemetry.(sent := s.telemetry.sent + 1))
  }

  /** An unreliable control packet: its number is used up whether or not the transport takes it. */
  function ControlStep(s: Session, packet: Packet, sends: bool): Effect {
    if s.remote.Some? && sends then Effect(Sent(Numbered(s)), [Outgoing(s.remote.value, packet)], [], true)
    else Failed(Numbered(s))
  }

  /** A new hello is tracked before it is sent, and stays tracked when the transport refuses it. */
  function HelloStep(s: Session, now: nat, sends: bool): Effect {
    var hello := Control(SessionHello, s.nextSequence, 0, now);
    var s1 := Numbered(s).(helloSequence := hello.sequence);
    if hello.sequence in s.pending then Failed(s1)
    else
      var s2 := s1.(pending := s.pending[hello.sequence := Pending(hello, now)]);
      if s.remote.Some? && sends then Effect(Sent(s2), [Outgoing(s.remote.value, hello)], [], true) else Failed(s2)
  }

  function ConnectStep(s: Session, remote: Address, now: nat, sends: bool): Effect {
    if s.role != Client || remote.port == 0 || s.state == Connected || s.state == Connecting || s.state == Reconnecting then Failed(s)
    else
      var e := HelloStep(s.(remote := Some(remote)), now, sends);
      if e.ok then e.(session := e.session.(state := Connecting, telemetry := e.session.telemetry.(state := LinkReconnecting)))
      else
        var h := e.session.helloSequence;
        Failed(e.session.(pending := if h != 0 then e.session.pending - {h} else e.session.pending, helloSequence := 0, remote := None))
  }

  function GiveUpStep(t: Timing, s: Session, now: nat): Effect {
    if s.state == Reconnecting && Elapsed(now, s.reconnectStarted, t.reconnect) then Quiet(AsDisconnected(s)) else Quiet(s)
  }

  function ResendStep(t: Timing, s: Session, now: nat, packets: seq<Packet>): Effect {
    if s.remote.None? || s.state == Disconnected then Quiet(s)
    else
      Effect(s.(pending := Renewed(s.pending, now, t.retryInterval), telemetry := s.telemetry.(sent := s.telemetry.sent + |packets|)),
             Addressed(s.remote.value, packets), [], true)
  }

  function Addressed(to: Address, packets: seq<Packet>): (out: seq<Outgoing>)
    ensures |out| == |packets| && forall i :: 0 <= i < |out| ==> out[i] == Outgoing(to, packets[i])
  {
    if packets == [] then [] else Addressed(to, packets[..|packets| - 1]) + [Outgoing(to, packets[|packets| - 1])]
  }

  /** Whom a packet is taken from: an idle host takes a hello from anyone, everybody else only its peer's packets. */
  predicate Heard(s: Session, source: Address, packet: Packet) {
    && s.state != Disconnected
    && if s.role == Host && s.state == Idle then packet.kind == SessionHello else s.remote == Some(source)
  }

  function HeardFrom(s: Session, source: Address, packet: Packet): Session {
    s.(remote := Some(source), telemetry := s.telemetry.(received := s.telemetry.received + 1),
       pending := if packet.ack != 0 then s.pending - {packet.ack} else s.pending)
  }

  function ReceiveStep(s: Session, source: Address, packet: Packet, now: nat, sends: bool): Effect {
    if !Heard(s, source, packet) then Quiet(s)
    else
      var heard := HeardFrom(s, source, packet);
      if (s.state == Connected || s.state == Reconnecting) && packet.kind == Disconnect then Quiet(AsDisconnected(heard))
      else if s.role == Host && packet.kind == SessionHello then AcceptStep(heard, packet, now, sends)
      else if s.role == Client && (s.state == Connecting || s.state == Reconnecting) && packet.kind == SessionAccept then
        AcceptedStep(heard, packet, now, sends)
      else if s.state != Connected then Quiet(heard)
      else PeerStep(heard.(lastPeerReceive := now, hasPeerReceiveTime := true), packet, now, sends)
  }

  function AcceptStep(s: Session, hello: Packet, now: nat, sends: bool): Effect {
    var accept := Control(SessionAccept, s.nextSequence, hello.sequence, now);
    if accept.sequence in s.pending then Failed(Numbered(s))
    else if s.remote.Some? && sends then
      Effect(AsConnected(Sent(Numbered(s)).(pending := s.pending[accept.sequence := Pending(accept, now)]), now),
             [Outgoing(s.remote.value, accept)], [], true)
    else Failed(Numbered(s))
  }

  function AcceptedStep(s: Session, accept: Packet, now: nat, sends: bool): Effect {
    if accept.ack != s.helloSequence then Quiet(s)
    else
      var connected := AsConnected(s.(pending := s.pending - {s.helloSequence}), now);
      ControlStep(connected, Control(Ping, s.nextSequence, accept.sequence, now), sends)
  }

  function PeerStep(s: Session, packet: Packet, now: nat, sends: bool): Effect {
    match packet.kind
    case Ping => ControlStep(s, Control(Pong, s.nextSequence, packet.sequence, packet.timestamp), sends)
    case Pong => Quiet(s)
    case SessionHello => Quiet(s)
    case SessionAccept => Quiet(s)
    case _ => Effect(s, [], [packet], true)
  }

  function ReconnectStep(s: Session, now: nat, sends: bool): Effect {
    if s.remote.None? then Failed(s)
    else
      var s1 := s.(state := Reconnecting, telemetry := s.telemetry.(state := LinkReconnecting, lost := s.telemetry.lost + 1),
                   reconnectStarted := now, lastHeartbeatSend := now);
      if s.role == Client then HelloStep(s1, now, sends) else Quiet(s1)
  }

  function HeartbeatStep(s: Session, now: nat, sends: bool): Effect {
    var e := ControlStep(s, Control(Ping, s.nextSequence, 0, now), sends);
    if e.ok then e.(session := e.session.(lastHeartbeatSend := now)) else e
  }

  function TickStep(t: Timing, s: Session, now: nat, sends: bool): Effect {
    var e :=
      if s.state == Connected && s.remote.Some? then
        if s.hasPeerReceiveTime && Elapsed(now, s.lastPeerReceive, t.liveness) then ReconnectStep(s, now, sends)
        else if Elapsed(now, s.lastHeartbeatSend, t.heartbeat) then HeartbeatStep(s, now, sends)
        else Quiet(s)
      else Quiet(s);
    if e.ok && e.session.state == Reconnecting && Elapsed(now, e.session.reconnectStarted, t.reconnect)
    then e.(session := AsDisconnected(e.session)) else e
  }

  function GameplayStep(s: Session, packet: Packet, sends: bool): Effect {
    if s.state != Connected || s.remote.None? || IsReliableControl(packet.kind) then Failed(s)
    else if sends && Serializable(packet) then Effect(Sent(s), [Outgoing(s.remote.value, packet)], [], true)
    else Failed(s)
  }

  function LeaveStep(s: Session, now: nat, sends: bool): Effect {
    if s.state != Connected || s.remote.None? then Failed(s)
    else if sends then
      Effect(AsDisconnected(Sent(Numbered(s))), [Outgoing(s.remote.value, Control(Disconnect, s.nextSequence, 0, now))], [], true)
    else Failed(Numbered(s))
  }

  function Act(t: Timing, s: Session, a: Action): Effect {
    match a
    case Connect(remote, now, sends) => ConnectStep(s, remote, now, sends)
    case GiveUp(now) => GiveUpStep(t, s, now)
    case Resend(now, packets) => ResendStep(t, s, now, packets)
    case Receive(source, packet, now, sends) => ReceiveStep(s, source, packet, now, sends)
    case Tick(now, sends) => TickStep(t, s, now, sends)
    case SendGameplay(packet, sends) => GameplayStep(s, packet, sends)
    case Leave(now, sends) => LeaveStep(s, now, sends)
  }

  // ----- What every action keeps -----

  function LinkOf(state: State): LinkState {
    match state
    case Connected => LinkConnected
    case Connecting => LinkReconnecting
    case Reconnecting => LinkReconnecting
    case _ => LinkDisconnected
  }

  /** Telemetry reports the state; a session that left idle has a peer; only clients connect. */
  ghost predicate LinkOk(s: Session) {
    && s.telemetry.state == LinkOf(s.state)
    && (s.state == Connected || s.state == Connecting || s.state == Reconnecting ==> s.remote.Some?)
    && (s.role == Host && s.state != Idle ==> s.remote.Some? && s.state != Connecting)
  }

  /** All that the checks of the clock can do. */
  lemma TickEffect(t: Timing, s: Session, now: nat, sends: bool)
    requires LinkOk(s)
    ensures var e := TickStep(t, s, now, sends);
      var next := e.session;
      && LinkOk(next) && next.role == s.role && next.remote == s.remote && e.delivered == []
      && (s.state != Connected ==> next.state == s.state || (s.state == Reconnecting && next.state == Disconnected))
      && (s.state == Connected ==> next.state == Connected || next.state == Reconnecting || next.state == Disconnected)
      && (forall i :: 0 <= i < |e.out| ==> e.out[i].packet.kind != SessionAccept && s.remote == Some(e.out[i].to))
      && (next.pending == s.pending
          || (s.role == Client && next.pending == s.pending[s.nextSequence := Pending(Control(SessionHello, s.nextSequence, 0, now), now)]))
      && (next.state == Connected ==> next.helloSequence == s.helloSequence)
  {
    hide ReconnectStep, Wrap, Control;
    HelloIsNoAccept(s.nextSequence, now);
    if s.remote.Some? {
      ReconnectEffect(s, now, sends);
    }
  }

  lemma HelloIsNoAccept(sequence: u32, now: nat)
    ensures Control(SessionHello, sequence, 0, now).kind == SessionHello && Control(Ping, sequence, 0, now).kind == Ping
  {
  }

  lemma ReconnectEffect(s: Session, now: nat, sends: bool)
    requires s.remote.Some?
    ensures var e := ReconnectStep(s, now, sends);
      var next := e.session;
      && next.role == s.role && next.remote == s.remote && next.state == Reconnecting && next.telemetry.state == LinkReconnecting && e.delivered == []
      && (forall i :: 0 <= i < |e.out| ==> e.out[i].packet.kind == SessionHello && s.remote == Some(e.out[i].to))
      && (next.pending == s.pending
          || (s.role == Client && next.pending == s.pending[s.nextSequence := Pending(Control(SessionHello, s.nextSequence, 0, now), now)]))
  {
  }

  /** Every action keeps the role, and telemetry in step with the state. */
  lemma ActKeepsLink(t: Timing, s: Session, a: Action)
    requires LinkOk(s)
    ensures LinkOk(Act(t, s, a).session) && Act(t, s, a).session.role == s.role
  {
    hide TickStep, ReceiveStep;
    if a.Tick? {
      TickEffect(t, s, a.now, a.sends);
    } else if a.Receive? {
      ReceiveKeepsLink(s, a);
    }
  }

  lemma ReceiveKeepsLink(s: Session, a: Action)
    requires LinkOk(s) && a.Receive?
    ensures var next := ReceiveStep(s, a.source, a.packet, a.now, a.sends).session; LinkOk(next) && next.role == s.role
  {
    hide Control;
  }

  /** An accept that this very action makes: the answer to the hello it received. */
  predicate Answers(s: Session, a: Action, next: Session, accept: Packet) {
    && s.role == Host && a.Receive? && a.packet.kind == SessionHello
    && accept.ack == a.packet.sequence && next.state == Connected && next.remote == Some(a.source)
    && (s.state != Idle ==> s.remote == Some(a.source))
  }

  /** Whatever awaits acknowledgement was waiting before, or is a hello, or answers the hello just received. */
  lemma PendingComesFrom(t: Timing, s: Session, a: Action, q: u32)
    requires LinkOk(s) && q in Act(t, s, a).session.pending
    ensures var next := Act(t, s, a).session;
      var p := next.pending[q].packet;
      || (q in s.pending && s.pending[q].packet == p)
      || (s.role == Client && p.kind == SessionHello)
      || Answers(s, a, next, p)
  {
    hide Renewed, Wrap, TickStep, ReceiveStep;
    if a.Tick? {
      TickEffect(t, s, a.now, a.sends);
    } else if a.Receive? {
      ReceivedPending(s, a, q);
    }
    RenewedKeepsPackets(s.pending, if a.Resend? then a.now else 0, t.retryInterval, q);
  }

  lemma ReceivedPending(s: Session, a: Action, q: u32)
    requires a.Receive? && q in ReceiveStep(s, a.source, a.packet, a.now, a.sends).session.pending
    ensures var next := ReceiveStep(s, a.source, a.packet, a.now, a.sends).session;
      (q in s.pending && s.pending[q].packet == next.pending[q].packet) || Answers(s, a, next, next.pending[q].packet)
  {
    hide Wrap, AcceptStep, AcceptedStep, PeerStep;
    var heard := HeardFrom(s, a.source, a.packet);
    AcceptPending(heard, a.packet, a.now, a.sends, q);
    AcceptedPending(heard, a.packet, a.now, a.sends, q);
    PeerPending(heard.(lastPeerReceive := a.now, hasPeerReceiveTime := true), a.packet, a.now, a.sends);
  }

  lemma AcceptPending(s: Session, hello: Packet, now: nat, sends: bool, q: u32)
    ensures var next := AcceptStep(s, hello, now, sends).session;
      q in next.pending ==>
        || (q in s.pending && s.pending[q] == next.pending[q])
        || (next.state == Connected && next.remote == s.remote && next.pending[q].packet.ack == hello.sequence)
  {
    hide Wrap;
  }

  lemma AcceptedPending(s: Session, accept: Packet, now: nat, sends: bool, q: u32)
    ensures var next := AcceptedStep(s, accept, now, sends).session; q in next.pending ==> q in s.pending && s.pending[q] == next.pending[q]
  {
    hide Wrap, Control;
  }

  lemma PeerPending(s: Session, packet: Packet, now: nat, sends: bool)
    ensures PeerStep(s, packet, now, sends).session.pending == s.pending
  {
    hide Wrap, Control;
  }

  lemma RenewedKeepsPackets(pending: map<u32, Pending>, now: nat, retry: nat, q: u32)
    ensures q in Renewed(pending, now, retry) ==> q in pending && Renewed(pending, now, retry)[q].packet == pending[q].packet
  {
  }

  /** Whatever is sent goes to the peer; an accept is sent again or answers the hello just received. */
  lemma OutgoingComesFrom(t: Timing, s: Session, a: Action, i: nat)
    requires LinkOk(s) && i < |Act(t, s, a).out|
    ensures var e := Act(t, s, a);
      && e.session.remote == Some(e.out[i].to)
      && (e.out[i].packet.kind == SessionAccept ==>
            || (a.Resend? && i < |a.packets| && e.out[i].packet == a.packets[i] && s.remote == e.session.remote)
            || Answers(s, a, e.session, e.out[i].packet))
  {
    hide Renewed, TickStep;
    if a.Tick? {
      TickEffect(t, s, a.now, a.sends);
    }
  }

  /** A new accept to be acknowledged has been sent. */
  lemma NewAcceptIsSent(t: Timing, s: Session, a: Action, q: u32)
    requires LinkOk(s) && s.role == Host && q in Act(t, s, a).session.pending
    ensures (q in s.pending && s.pending[q].packet == Act(t, s, a).session.pending[q].packet) || Act(t, s, a).out != []
  {
    hide Renewed, Wrap, TickStep;
    if a.Tick? {
      TickEffect(t, s, a.now, a.sends);
    }
    RenewedKeepsPackets(s.pending, if a.Resend? then a.now else 0, t.retryInterval, q);
  }

  // ----- The hellos of a client -----

  /** The client has sent a hello and not given up on it since. */
  predicate Engaged(state: State) {
    state == Connecting || state == Connected || state == Reconnecting
  }

  /** The hello that an action issues, whether or not the transport then takes it. */
  function HelloIssued(t: Timing, s: Session, a: Action): seq<Packet> {
    if s.role == Host then []
    else
      match a
      case Connect(remote, now, _) =>
        if remote.port == 0 || Engaged(s.state) then [] else [Control(SessionHello, s.nextSequence, 0, now)]
      case Tick(now, _) =>
        if s.state == Connected && s.remote.Some? && s.hasPeerReceiveTime && Elapsed(now, s.lastPeerReceive, t.liveness)
        then [Control(SessionHello, s.nextSequence, 0, now)] else []
      case _ => []
  }

  /** An action uses up at most one number; a hello takes the next one, and while engaged the hello number is that of
      the latest hello. */
  lemma HelloTakesNumber(t: Timing, s: Session, a: Action)
    requires s.role == Client
    ensures var next, h := Act(t, s, a).session, HelloIssued(t, s, a);
      && (next.nextSequence == s.nextSequence || next.nextSequence == Wrap(s.nextSequence + 1))
      && (h != [] ==> |h| == 1 && h[0].sequence == s.nextSequence && h[0].kind == SessionHello && next.nextSequence == Wrap(s.nextSequence + 1))
      && (Engaged(next.state) ==> if h != [] then next.helloSequence == s.nextSequence else Engaged(s.state) && next.helloSequence == s.helloSequence)
  {
    hide Wrap, Renewed;
    if a.Receive? {
      ReceivingTakesNumber(s, a);
    }
  }

  lemma ReceivingTakesNumber(s: Session, a: Action)
    requires s.role == Client && a.Receive?
    ensures var next := ReceiveStep(s, a.source, a.packet, a.now, a.sends).session;
      && (next.nextSequence == s.nextSequence || next.nextSequence == Wrap(s.nextSequence + 1))
      && (Engaged(next.state) ==> Engaged(s.state) && next.helloSequence == s.helloSequence)
  {
    hide Wrap;
  }

  /** A hello awaiting acknowledgement was waiting before or has just been issued. */
  lemma PendingHelloIsIssued(t: Timing, s: Session, a: Action, q: u32)
    requires s.role == Client && q in Act(t, s, a).session.pending
    ensures (q in s.pending && s.pending[q].packet == Act(t, s, a).session.pending[q].packet)
         || Act(t, s, a).session.pending[q].packet in HelloIssued(t, s, a)
  {
    hide Wrap, Renewed, Control, ReceiveStep, TickStep;
    RenewedKeepsPackets(s.pending, if a.Resend? then a.now else 0, t.retryInterval, q);
    if a.Receive? {
      ReceivedPending(s, a, q);
    } else if a.Tick? {
      TickedPending(t, s, a, q);
    }
  }

  lemma TickedPending(t: Timing, s: Session, a: Action, q: u32)
    requires s.role == Client && a.Tick? && q in TickStep(t, s, a.now, a.sends).session.pending
    ensures var next := TickStep(t, s, a.now, a.sends).session;
      (q in s.pending && s.pending[q].packet == next.pending[q].packet) || next.pending[q].packet in HelloIssued(t, s, a)
  {
    hide Wrap, Control;
  }

  /** A hello that is sent is sent again or has just been issued. */
  lemma OutgoingHelloIsIssued(t: Timing, s: Session, a: Action, i: nat)
    requires s.role == Client && i < |Act(t, s, a).out| && Act(t, s, a).out[i].packet.kind == SessionHello
    ensures var packet := Act(t, s, a).out[i].packet;
      (a.Resend? && packet in a.packets) || packet in HelloIssued(t, s, a)
  {
    hide Wrap, Renewed;
  }

  /** A host that left idle keeps its peer, and a disconnected one stays disconnected. */
  lemma HostKeepsPeer(t: Timing, s: Session, a: Action)
    requires LinkOk(s) && s.role == Host && s.state != Idle
    ensures var next := Act(t, s, a).session;
      next.state != Idle && next.remote == s.remote && (s.state == Disconnected ==> next.state == Disconnected)
  {
    hide TickStep;
    if a.Tick? {
      TickEffect(t, s, a.now, a.sends);
    }
  }

  /** A client leaves disconnected only by connecting, and then only to the address it was given. */
  lemma ClientStaysDisconnected(t: Timing, s: Session, a: Action)
    requires s.role == Client && s.state == Disconnected && Act(t, s, a).session.state != Disconnected
    ensures a.Connect? && a.sends && Act(t, s, a).session.state == Connecting && Act(t, s, a).session.remote == Some(a.remote)
  {
  }

  /** A client becomes connected only by an accept, from its peer, of its latest hello. */
  lemma ClientConnectsByAccept(t: Timing, s: Session, a: Action)
    requires s.role == Client && s.state != Connected && Act(t, s, a).session.state == Connected
    ensures a.Receive? && a.packet.kind == SessionAccept && a.packet.ack == s.helloSequence && s.remote == Some(a.source)
    ensures Act(t, s, a).session.helloSequence == s.helloSequence && Act(t, s, a).session.remote == s.remote
  {
  }

  /** Only input packets are delivered, only while connected, and only from the peer. */
  lemma DeliveredAreInputs(t: Timing, s: Session, a: Action)
    requires a.Receive? ==> !a.packet.kind.Unlisted?
    ensures var d := Act(t, s, a).delivered;
      d != [] ==> s.state == Connected && a.Receive? && d == [a.packet] && a.packet.kind == Input && s.remote == Some(a.source)
  {
  }

  // ----- Several actions -----

  ghost predicate IsPending(pending: map<u32, Pending>, packet: Packet) {
    exists q :: q in pending && pending[q].packet == packet
  }

  ghost predicate WerePending(pending: map<u32, Pending>, packets: seq<Packet>) {
    forall packet :: packet in packets ==> IsPending(pending, packet)
  }

  function Perform(t: Timing, s: Session, actions: seq<Action>): Effect {
    if actions == [] then Quiet(s)
    else
      var e := Perform(t, s, actions[..|actions| - 1]);
      var a := Act(t, e.session, actions[|actions| - 1]);
      Effect(a.session, e.out + a.out, e.delivered + a.delivered, e.ok && a.ok)
  }

  lemma PerformOneMore(t: Timing, s: Session, actions: seq<Action>, a: Action)
    ensures var e := Perform(t, s, actions);
      var last := Act(t, e.session, a);
      Perform(t, s, actions + [a]) == Effect(last.session, e.out + last.out, e.delivered + last.delivered, e.ok && last.ok)
  {
    assert (actions + [a])[..|actions|] == actions;
  }
}
