/** DirectUdpSession (core/network_transport.h) as an object over the retransmission queue. The transport may refuse
    any packet; `posted` is what it took. Every method is proved to perform actions of `SessionProtocol`. */
module SessionDevice {
  import opened Outcomes
  import opened Words
  import opened PacketCodec
  import opened ReliableQueue
  import opened SessionProtocol

  /** What the transport has to offer next: a parsed packet, or a datagram that could not be read. */
  datatype Arrival = Arrived(source: Address, packet: Packet) | Broken(error: ErrorCode)

  /** Giving up, sending again, receiving what arrived in order, and at last the clock; it may stop anywhere. */
  ghost predicate IsPollTrace(now: nat, incoming: seq<Arrival>, trace: seq<Action>) {
    && 0 < |trace| <= |incoming| + 3
    && trace[0] == GiveUp(now)
    && (|trace| > 1 ==> trace[1].Resend? && trace[1].now == now)
    && (forall i {:trigger incoming[i]} :: 0 <= i < |incoming| && i + 2 < |trace| ==>
          incoming[i].Arrived? && trace[i + 2].Receive? && trace[i + 2].now == now
          && trace[i + 2].source == incoming[i].source && trace[i + 2].packet == incoming[i].packet)
    && (|trace| == |incoming| + 3 ==> trace[|incoming| + 2].Tick? && trace[|incoming| + 2].now == now)
  }

  lemma PollTraceStarts(now: nat, incoming: seq<Arrival>, packets: seq<Packet>)
    ensures IsPollTrace(now, incoming, [GiveUp(now)]) && [GiveUp(now), Resend(now, packets)] == [GiveUp(now)] + [Resend(now, packets)]
    ensures IsPollTrace(now, incoming, [GiveUp(now), Resend(now, packets)])
  {
  }

  lemma PollTraceGrows(now: nat, incoming: seq<Arrival>, trace: seq<Action>, sends: bool)
    requires IsPollTrace(now, incoming, trace) && 2 <= |trace| < |incoming| + 3
    ensures |trace| < |incoming| + 2 && incoming[|trace| - 2].Arrived? ==>
      IsPollTrace(now, incoming, trace + [Receive(incoming[|trace| - 2].source, incoming[|trace| - 2].packet, now, sends)])
    ensures |trace| == |incoming| + 2 ==> IsPollTrace(now, incoming, trace + [Tick(now, sends)])
  {
  }

  lemma PerformOne(t: Timing, s: Session, a: Action)
    ensures Perform(t, s, [a]) == Act(t, s, a)
  {
    hide Act;
    assert [a][..0] == [] && Perform(t, s, []) == Quiet(s);
  }

  lemma NothingPending(pending: map<u32, Pending>)
    ensures WerePending(pending, [])
  {
  }

  lemma DueWerePending(pending: map<u32, Pending>, now: nat, retry: nat, due: seq<Packet>, sent: nat)
    requires DueOf(pending, pending.Keys, now, retry, due) && sent <= |due|
    ensures WerePending(pending, due[..sent])
  {
    forall packet | packet in due[..sent] ensures IsPending(pending, packet) {
      assert packet in due;
      assert packet.sequence in pending && pending[packet.sequence].packet == packet;
    }
  }

  class DirectUdpSession {
    const role: Role
    const timing: Timing
    const reliability: ControlReliabilityQueue
    var state: State
    var remote: Option<Address>
    var telemetry: Telemetry
    var nextSequence: u32
    var helloSequence: u32
    var lastPeerReceive: nat
    var lastHeartbeatSend: nat
    var reconnectStarted: nat
    var hasPeerReceiveTime: bool
    ghost var posted: seq<Outgoing>

    function View(): Session
      reads this, reliability
    {
      Session(role, state, remote, reliability.pending, telemetry, nextSequence, helloSequence, lastPeerReceive, lastHeartbeatSend,
                      reconnectStarted, hasPeerReceiveTime)
    }

    ghost predicate Valid()
      reads this, reliability
    {
      reliability.Valid() && reliability.retryInterval == timing.retryInterval
    }

    constructor (role: Role, timing: Timing)
      ensures Valid() && fresh(reliability) && this.timing == timing && posted == []
      ensures View() == Start(role)
    {
      this.role, this.timing := role, timing;
      reliability := new ControlReliabilityQueue(timing.retryInterval);
      state, remote, telemetry := Idle, None, Telemetry(0, 0, 0, LinkDisconnected);
      nextSequence, helloSequence, lastPeerReceive, lastHeartbeatSend, reconnectStarted := 1, 0, 0, 0, 0;
      hasPeerReceiveTime := false;
      posted := [];
    }

    // ----- The transport -----

    method SendPacket(to: Address, packet: Packet) returns (r: Result<()>)
      modifies `posted
      ensures r.Success? ==> Serializable(packet)
      ensures posted == if r.Success? then old(posted) + [Outgoing(to, packet)] else old(posted)
    {
      if !Serializable(packet) || to.port == 0 {
        return Failure(InvalidArgument);
      }
      if * {
        return Failure(IoError);
      }
      posted := posted + [Outgoing(to, packet)];
      r := Success(());
    }

    method SendControlPacket(packet: Packet) returns (r: Result<()>)
      modifies `posted, `telemetry
      ensures r.Success? ==> remote.Some?
      ensures posted == if r.Success? then old(posted) + [Outgoing(remote.value, packet)] else old(posted)
      ensures telemetry == if r.Success? then old(telemetry).(sent := old(telemetry).sent + 1) else old(telemetry)
    {
      if remote.None? {
        return Failure(InvalidArgument);
      }
      r := SendPacket(remote.value, packet);
      if r.Success? {
        telemetry := telemetry.(sent := telemetry.sent + 1);
      }
    }

    method TakeSequence() returns (sequence: u32)
      modifies `nextSequence
      ensures sequence == old(nextSequence) && nextSequence == Wrap(old(nextSequence) + 1)
    {
      sequence := nextSequence;
      nextSequence := Wrap(nextSequence + 1);
    }

    // ----- Marks -----

    method MarkConnected(now: nat)
      modifies `state, `telemetry, `lastPeerReceive, `lastHeartbeatSend, `reconnectStarted, `hasPeerReceiveTime
      ensures View() == AsConnected(old(View()), now)
    {
      state := Connected;
      telemetry := telemetry.(state := LinkConnected);
      lastPeerReceive, lastHeartbeatSend, reconnectStarted, hasPeerReceiveTime := now, now, 0, true;
    }

    method MarkDisconnected()
      modifies `state, `telemetry, `reconnectStarted
      ensures View() == AsDisconnected(old(View()))
    {
      state := Disconnected;
      telemetry := telemetry.(state := LinkDisconnected);
      reconnectStarted := 0;
    }

    // ----- Sending on the session's own account -----

    method SendNewHello(now: nat) returns (r: Result<()>, ghost sends: bool)
      requires Valid()
      modifies this, reliability
      ensures Valid()
      ensures var e := HelloStep(old(View()), now, sends);
        View() == e.session && posted == old(posted) + e.out && r.Success? == e.ok
    {
      hide Wrap, Clock, ControlReliabilityQueue.Valid;
      sends := false;
      var sequence := TakeSequence();
      var hello := Control(SessionHello, sequence, 0, now);
      hide Control;
      helloSequence := hello.sequence;
      r := reliability.Track(hello, now);
      if r.Failure? {
        return;
      }
      r := SendControlPacket(hello);
      sends := r.Success?;
    }

    method SendHeartbeat(now: nat) returns (r: Result<()>, ghost sends: bool)
      requires Valid()
      modifies this
      ensures Valid()
      ensures var e := HeartbeatStep(old(View()), now, sends);
        View() == e.session && posted == old(posted) + e.out && r.Success? == e.ok
    {
      var sequence := TakeSequence();
      var ping := Control(Ping, sequence, 0, now);
      r := SendControlPacket(ping);
      sends := r.Success?;
      if r.Success? {
        lastHeartbeatSend := now;
      }
    }

    method BeginReconnect(now: nat) returns (r: Result<()>, ghost sends: bool)
      requires Valid()
      modifies this, reliability
      ensures Valid()
      ensures var e := ReconnectStep(old(View()), now, sends);
        View() == e.session && posted == old(posted) + e.out && r.Success? == e.ok
    {
      hide HelloStep, ControlReliabilityQueue.Valid;
      sends := false;
      if remote.None? {
        return Failure(InvalidArgument), false;
      }
      state := Reconnecting;
      telemetry := telemetry.(state := LinkReconnecting, lost := telemetry.lost + 1);
      reconnectStarted, lastHeartbeatSend := now, now;
      if role == Client {
        r, sends := SendNewHello(now);
        return;
      }
      r := Success(());
    }

    // ----- The public operations -----

    method Connect(to: Address, now: nat) returns (r: Result<()>, ghost sends: bool)
      requires Valid()
      modifies this, reliability
      ensures Valid()
      ensures var e := Act(timing, old(View()), Action.Connect(to, now, sends));
        View() == e.session && posted == old(posted) + e.out && r.Success? == e.ok
    {
      hide Wrap, Control, ControlReliabilityQueue.Valid;
      sends := false;
      if role != Client {
        return Failure(InvalidArgument), sends;
      }
      if to.port == 0 {
        return Failure(InvalidArgument), sends;
      }
      if state == Connected || state == Connecting || state == Reconnecting {
        return Failure(InvalidArgument), sends;
      }
      remote := Some(to);
      r, sends := SendNewHello(now);
      if r.Failure? {
        if helloSequence != 0 {
          reliability.Acknowledge(helloSequence);
        }
        helloSequence := 0;
        remote := None;
        return;
      }
      state := Connecting;
      telemetry := telemetry.(state := LinkReconnecting);
    }

    method Send(packet: Packet) returns (r: Result<()>, ghost sends: bool)
      requires Valid()
      modifies this
      ensures Valid()
      ensures var e := Act(timing, old(View()), SendGameplay(packet, sends));
        View() == e.session && posted == old(posted) + e.out && r.Success? == e.ok
    {
      sends := false;
      if state != Connected || remote.None? {
        return Failure(InvalidArgument), sends;
      }
      if IsReliableControl(packet.kind) {
        return Failure(InvalidArgument), sends;
      }
      r := SendPacket(remote.value, packet);
      sends := r.Success?;
      if r.Success? {
        telemetry := telemetry.(sent := telemetry.sent + 1);
      }
    }

    method Disconnect(now: nat) returns (r: Result<()>, ghost sends: bool)
      requires Valid()
      modifies this
      ensures Valid()
      ensures var e := Act(timing, old(View()), Leave(now, sends));
        View() == e.session && posted == old(posted) + e.out && r.Success? == e.ok
    {
      sends := false;
      if state != Connected || remote.None? {
        return Failure(InvalidArgument), sends;
      }
      var sequence := TakeSequence();
      r := SendPacket(remote.value, Control(PacketKind.Disconnect, sequence, 0, now));
      sends := r.Success?;
      if r.Failure? {
        return;
      }
      telemetry := telemetry.(sent := telemetry.sent + 1);
      MarkDisconnected();
    }

    // ----- Polling -----

    /** Sends packets to the peer until the transport refuses one. */
    method SendAll(to: Address, packets: seq<Packet>) returns (r: Result<()>, ghost sent: nat)
      modifies `posted, `telemetry
      ensures sent <= |packets| && posted == old(posted) + Addressed(to, packets[..sent])
      ensures telemetry == old(telemetry).(sent := old(telemetry).sent + sent)
    {
      hide Serializable;
      r, sent := Success(()), 0;
      for i := 0 to |packets|
        invariant sent == i && posted == old(posted) + Addressed(to, packets[..i])
        invariant telemetry == old(telemetry).(sent := old(telemetry).sent + i)
      {
        r := SendPacket(to, packets[i]);
        if r.Failure? {
          return;
        }
        telemetry := telemetry.(sent := telemetry.sent + 1);
        sent := sent + 1;
        assert packets[..i + 1][..i] == packets[..i];
      }
    }

    /** Sends what is due again. */
    method ResendDue(now: nat) returns (r: Result<()>, ghost packets: seq<Packet>)
      requires Valid()
      modifies this, reliability
      ensures Valid()
      ensures var e := Act(timing, old(View()), Resend(now, packets));
        View() == e.session && posted == old(posted) + e.out && e.delivered == [] && e.ok
      ensures WerePending(old(reliability.pending), packets)
    {
      hide Renewed, DueOf, Addressed, WerePending, ControlReliabilityQueue.Valid;
      packets := [];
      r := Success(());
      NothingPending(reliability.pending);
      if remote.Some? && state != State.Disconnected {
        ghost var before := reliability.pending;
        var due := reliability.DueRetransmits(now);
        ghost var sent: nat;
        r, sent := SendAll(remote.value, due);
        packets := due[..sent];
        DueWerePending(before, now, timing.retryInterval, due, sent);
      }
    }

    /** A host answers every hello of its peer, known or new. */
    method AnswerHello(hello: Packet, now: nat) returns (r: Result<()>, ghost sends: bool)
      requires Valid()
      modifies this, reliability
      ensures Valid()
      ensures var e := AcceptStep(old(View()), hello, now, sends);
        View() == e.session && posted == old(posted) + e.out && e.delivered == [] && r.Success? == e.ok
    {
      hide Wrap, Clock, ControlReliabilityQueue.Valid;
      sends := false;
      var sequence := TakeSequence();
      var accept := Control(SessionAccept, sequence, hello.sequence, now);
      hide Control;
      r := reliability.Track(accept, now);
      if r.Failure? {
        return;
      }
      r := SendControlPacket(accept);
      if r.Failure? {
        reliability.Acknowledge(sequence);
        return;
      }
      sends := true;
      MarkConnected(now);
    }

    /** A client takes the accept of its latest hello, and says so. */
    method TakeAccept(accept: Packet, now: nat) returns (r: Result<()>, ghost sends: bool)
      requires Valid()
      modifies this, reliability
      ensures Valid()
      ensures var e := AcceptedStep(old(View()), accept, now, sends);
        View() == e.session && posted == old(posted) + e.out && e.delivered == [] && r.Success? == e.ok
    {
      hide Wrap, Control, ControlReliabilityQueue.Valid;
      r, sends := Success(()), false;
      if accept.ack != helloSequence {
        return;
      }
      reliability.Acknowledge(helloSequence);
      MarkConnected(now);
      var sequence := TakeSequence();
      r := SendControlPacket(Control(Ping, sequence, accept.sequence, now));
      sends := r.Success?;
    }

    /** A connected session answers pings and hands on what is not its own business. */
    method HandlePeerPacket(packet: Packet, now: nat) returns (r: Result<()>, delivered: seq<Packet>, ghost sends: bool)
      requires Valid()
      modifies this
      ensures Valid()
      ensures var e := PeerStep(old(View()).(lastPeerReceive := now, hasPeerReceiveTime := true), packet, now, sends);
        View() == e.session && posted == old(posted) + e.out && delivered == e.delivered && r.Success? == e.ok
    {
      hide Wrap, Control, ControlReliabilityQueue.Valid;
      r, delivered, sends := Success(()), [], false;
      lastPeerReceive, hasPeerReceiveTime := now, true;
      if packet.kind == Ping {
        var sequence := TakeSequence();
        r := SendControlPacket(Control(Pong, sequence, packet.sequence, packet.timestamp));
        sends := r.Success?;
        return;
      }
      if packet.kind == Pong || packet.kind == SessionHello || packet.kind == SessionAccept {
        return;
      }
      delivered := [packet];
    }

    /** Whether a packet is for this session; if so, its acknowledgement is taken. */
    method Hear(source: Address, packet: Packet) returns (heard: bool)
      requires Valid()
      modifies this, reliability
      ensures Valid() && posted == old(posted)
      ensures heard == Heard(old(View()), source, packet)
      ensures View() == if heard then HeardFrom(old(View()), source, packet) else old(View())
    {
      hide ControlReliabilityQueue.Valid;
      if state == State.Disconnected {
        return false;
      }
      if role == Host && state == Idle {
        if packet.kind != SessionHello {
          return false;
        }
        remote := Some(source);
      } else if remote.None? || source != remote.value {
        return false;
      }
      telemetry := telemetry.(received := telemetry.received + 1);
      if packet.ack != 0 {
        reliability.Acknowledge(packet.ack);
      }
      return true;
    }

    /** One packet that arrived. */
    method ReceivePacket(source: Address, packet: Packet, now: nat) returns (r: Result<()>, delivered: seq<Packet>, ghost sends: bool)
      requires Valid()
      modifies this, reliability
      ensures Valid()
      ensures var e := Act(timing, old(View()), Receive(source, packet, now, sends));
        View() == e.session && posted == old(posted) + e.out && delivered == e.delivered && r.Success? == e.ok
    {
      hide AcceptStep, AcceptedStep, PeerStep, Heard, ControlReliabilityQueue.Valid;
      r, delivered, sends := Success(()), [], false;
      var heard := Hear(source, packet);
      if !heard {
        return;
      }
      if (state == Connected || state == Reconnecting) && packet.kind == PacketKind.Disconnect {
        MarkDisconnected();
        return;
      }
      if role == Host && packet.kind == SessionHello {
        r, sends := AnswerHello(packet, now);
        return;
      }
      if role == Client && (state == Connecting || state == Reconnecting) && packet.kind == SessionAccept {
        r, sends := TakeAccept(packet, now);
        return;
      }
      if state != Connected {
        return;
      }
      r, delivered, sends := HandlePeerPacket(packet, now);
    }

    /** The checks of the clock that end a poll. */
    method CheckClock(now: nat) returns (r: Result<()>, ghost sends: bool)
      requires Valid()
      modifies this, reliability
      ensures Valid()
      ensures var e := Act(timing, old(View()), Tick(now, sends));
        View() == e.session && posted == old(posted) + e.out && e.delivered == [] && r.Success? == e.ok
    {
      hide ControlReliabilityQueue.Valid, Wrap, Control;
      r, sends := Success(()), false;
      if state == Connected && remote.Some? {
        if hasPeerReceiveTime && Elapsed(now, lastPeerReceive, timing.liveness) {
          r, sends := BeginReconnect(now);
          if r.Failure? {
            return;
          }
        } else if Elapsed(now, lastHeartbeatSend, timing.heartbeat) {
          r, sends := SendHeartbeat(now);
          if r.Failure? {
            return;
          }
        }
      }
      if state == Reconnecting && Elapsed(now, reconnectStarted, timing.reconnect) {
        MarkDisconnected();
      }
    }

    method GiveUpIfLate(now: nat) returns (late: bool)
      requires Valid()
      modifies this
      ensures Valid()
      ensures var e := Act(timing, old(View()), GiveUp(now));
        View() == e.session && posted == old(posted) && e.out == [] && e.delivered == [] && e.ok
      ensures late ==> old(state) == Reconnecting && state == State.Disconnected
    {
      hide ControlReliabilityQueue.Valid;
      late := state == Reconnecting && Elapsed(now, reconnectStarted, timing.reconnect);
      if late {
        MarkDisconnected();
      }
    }

    /** One poll: the actions it performs are giving up if it is late, sending again what is due, receiving everything
        that arrived, in order, and looking at the clock. It stops early when it gives up or when something fails, and
        what was received before a failure is then lost. */
    method Poll(now: nat, incoming: seq<Arrival>) returns (r: Result<seq<Packet>>, ghost trace: seq<Action>)
      requires Valid()
      modifies this, reliability
      ensures Valid()
      ensures var e := Perform(timing, old(View()), trace);
        View() == e.session && posted == old(posted) + e.out && (r.Success? ==> r.value == e.delivered)
      ensures IsPollTrace(now, incoming, trace) && (|trace| > 1 ==> trace[1].Resend? && WerePending(old(reliability.pending), trace[1].packets))
      ensures r.Success? ==> |trace| == |incoming| + 3 || (trace == [GiveUp(now)] && state == State.Disconnected && old(state) == Reconnecting)
    {
      hide *;
      ghost var s0 := View();
      var delivered: seq<Packet> := [];
      PerformOne(timing, s0, GiveUp(now));
      trace := [GiveUp(now)];
      var late := GiveUpIfLate(now);
      ghost var packets: seq<Packet>, sends: bool;
      PollTraceStarts(now, incoming, []);
      if late {
        return Success(delivered), trace;
      }
      var sent: Result<()>;
      sent, packets := ResendDue(now);
      PollTraceStarts(now, incoming, packets);
      PerformOneMore(timing, s0, trace, Resend(now, packets));
      trace := [GiveUp(now), Resend(now, packets)];
      if sent.Failure? {
        return Failure(sent.error), trace;
      }
      for i := 0 to |incoming|
        invariant Valid() && |trace| == i + 2 && IsPollTrace(now, incoming, trace) && trace[1] == Resend(now, packets)
        invariant var e := Perform(timing, s0, trace); View() == e.session && posted == old(posted) + e.out && delivered == e.delivered
      {
        if incoming[i].Broken? {
          return Failure(incoming[i].error), trace;
        }
        var more: seq<Packet>;
        sent, more, sends := ReceivePacket(incoming[i].source, incoming[i].packet, now);
        PerformOneMore(timing, s0, trace, Receive(incoming[i].source, incoming[i].packet, now, sends));
        PollTraceGrows(now, incoming, trace, sends);
        trace := trace + [Receive(incoming[i].source, incoming[i].packet, now, sends)];
        delivered := delivered + more;
        if sent.Failure? {
          return Failure(sent.error), trace;
        }
      }
      sent, sends := CheckClock(now);
      PerformOneMore(timing, s0, trace, Tick(now, sends));
      PollTraceGrows(now, incoming, trace, sends);
      trace := trace + [Tick(now, sends)];
      if sent.Failure? {
        return Failure(sent.error), trace;
      }
      r := Success(delivered);
    }
  }
}
