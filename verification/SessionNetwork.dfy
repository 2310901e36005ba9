/** A host and a client over a network that loses, repeats and reorders. Everything ever sent stays in the air and
    may arrive any number of times or never; strangers may send anything from addresses of their own.

    Two records are kept of what happened: the hellos that the client issued, in order, and those that the host
    answered. The numbers of hellos wrap, so a hello is told by its packet and not by its number. */
module SessionNetwork {
  import opened Outcomes
  import opened Words
  import opened PacketCodec
  import opened ReliableQueue
  import opened SessionProtocol

  datatype Datagram = Datagram(from: Address, to: Address, packet: Packet)

  /** The two parties' addresses and timings. */
  datatype Parties = Parties(hostAt: Address, clientAt: Address, hostTiming: Timing, clientTiming: Timing)

  datatype World = World(host: Session, client: Session, air: set<Datagram>, hellos: seq<Packet>, answered: set<Packet>)

  function Beginning(): World {
    World(Start(Host), Start(Client), {}, [], {})
  }

  function Posted(from: Address, out: seq<Outgoing>): set<Datagram> {
    set i | 0 <= i < |out| :: Datagram(from, out[i].to, out[i].packet)
  }

  /** What the network may let happen at `self`: only real packets arrive; those that claim to come from one of the
      parties were sent by it; and what is sent again was waiting to be acknowledged. */
  ghost predicate Possible(p: Parties, w: World, self: Address, s: Session, a: Action) {
    match a
    case Receive(source, packet, _, _) =>
      && !packet.kind.Unlisted?
      && (source == p.hostAt || source == p.clientAt ==> Datagram(source, self, packet) in w.air)
    case Resend(_, packets) => WerePending(s.pending, packets)
    case _ => true
  }

  /** The hello of the client that a host's action has answered. */
  function Answering(p: Parties, a: Action, e: Effect): set<Packet> {
    if a.Receive? && a.source == p.clientAt && a.packet.kind == SessionHello && e.out != [] then {a.packet} else {}
  }

  ghost predicate HostMoves(p: Parties, w: World, a: Action, w': World) {
    && Possible(p, w, p.hostAt, w.host, a)
    && var e := Act(p.hostTiming, w.host, a);
    w' == w.(host := e.session, air := w.air + Posted(p.hostAt, e.out), answered := w.answered + Answering(p, a, e))
  }

  ghost predicate ClientMoves(p: Parties, w: World, a: Action, w': World) {
    && Possible(p, w, p.clientAt, w.client, a)
    && var e := Act(p.clientTiming, w.client, a);
    w' == w.(client := e.session, air := w.air + Posted(p.clientAt, e.out), hellos := w.hellos + HelloIssued(p.clientTiming, w.client, a))
  }

  ghost predicate Next(p: Parties, w: World, w': World) {
    exists a :: HostMoves(p, w, a, w') || ClientMoves(p, w, a, w')
  }

  ghost predicate IsRun(p: Parties, run: seq<World>) {
    && run != [] && run[0] == Beginning()
    && forall i {:trigger run[i]} :: 0 < i < |run| ==> Next(p, run[i - 1], run[i])
  }

  /** The client's numbers have not run out: its next number has never gone back. */
  ghost predicate NumbersLast(run: seq<World>) {
    forall i {:trigger run[i]} :: 0 < i < |run| ==> run[i - 1].client.nextSequence <= run[i].client.nextSequence
  }

  // ----- The invariant -----

  /** The host has answered a hello of the client with that number. */
  ghost predicate AnsweredNumber(w: World, number: u32) {
    exists h :: h in w.answered && h.sequence == number
  }

  predicate IsAccept(p: Parties, d: Datagram, number: u32) {
    d.from == p.hostAt && d.to == p.clientAt && d.packet.kind == SessionAccept && d.packet.ack == number
  }

  /** What the host answered the client really sent to it. */
  ghost predicate AnsweredOk(p: Parties, w: World) {
    forall h :: h in w.answered ==> h.kind == SessionHello && Datagram(p.clientAt, p.hostAt, h) in w.air
  }

  /** Accepts only go to the host's peer, and answer hellos of that peer. */
  ghost predicate AcceptsOk(p: Parties, w: World) {
    forall d :: d in w.air && d.from == p.hostAt && d.packet.kind == SessionAccept ==>
      w.host.state != Idle && w.host.remote == Some(d.to) && (d.to == p.clientAt ==> AnsweredNumber(w, d.packet.ack))
  }

  ghost predicate HostPendingOk(p: Parties, w: World) {
    forall q :: q in w.host.pending && w.host.pending[q].packet.kind == SessionAccept ==>
      w.host.state != Idle && (w.host.remote == Some(p.clientAt) ==> AnsweredNumber(w, w.host.pending[q].packet.ack))
  }

  ghost predicate ConnectionOk(p: Parties, w: World) {
    w.client.state == Connected && w.client.remote == Some(p.hostAt) ==>
      AnsweredNumber(w, w.client.helloSequence) && w.host.state != Idle && w.host.remote == Some(p.clientAt)
  }

  /** Every hello of the client that is in the air, or may be sent again, it has issued. */
  ghost predicate HellosOk(p: Parties, w: World) {
    && (forall d :: d in w.air && d.from == p.clientAt && d.packet.kind == SessionHello ==> d.packet in w.hellos)
    && (forall q :: q in w.client.pending && w.client.pending[q].packet.kind == SessionHello ==> w.client.pending[q].packet in w.hellos)
  }

  /** While the client is engaged its hello number is that of the latest hello it issued. */
  ghost predicate LatestOk(w: World) {
    Engaged(w.client.state) ==> w.hellos != [] && w.hellos[|w.hellos| - 1].sequence == w.client.helloSequence
  }

  ghost predicate HostSideOk(p: Parties, w: World) {
    w.host.role == Host && LinkOk(w.host) && AnsweredOk(p, w) && AcceptsOk(p, w) && HostPendingOk(p, w)
  }

  ghost predicate ClientSideOk(p: Parties, w: World) {
    w.client.role == Client && LinkOk(w.client) && HellosOk(p, w) && LatestOk(w)
  }

  ghost predicate WorldOk(p: Parties, w: World) {
    HostSideOk(p, w) && ClientSideOk(p, w) && ConnectionOk(p, w)
  }

  // ----- The host moves -----

  lemma AnswerIsRecorded(p: Parties, w: World, a: Action, w': World, accept: Packet)
    requires HostMoves(p, w, a, w') && Answers(w.host, a, w'.host, accept) && Act(p.hostTiming, w.host, a).out != []
    ensures a.source == p.clientAt ==> AnsweredNumber(w', accept.ack)
  {
    hide Act;
    if a.source == p.clientAt {
      assert a.packet in w'.answered;
    }
  }

  lemma AnsweredOnlyGrows(w: World, w': World, number: u32)
    requires w.answered <= w'.answered
    ensures AnsweredNumber(w, number) ==> AnsweredNumber(w', number)
  {
  }

  lemma HostKeepsAnswered(p: Parties, w: World, a: Action, w': World)
    requires HostSideOk(p, w) && HostMoves(p, w, a, w')
    ensures AnsweredOk(p, w')
  {
    hide Act, AcceptsOk, HostPendingOk, LinkOk;
  }

  lemma HostKeepsAccepts(p: Parties, w: World, a: Action, w': World)
    requires p.hostAt != p.clientAt && HostSideOk(p, w) && HostMoves(p, w, a, w')
    ensures AcceptsOk(p, w')
  {
    var e := Act(p.hostTiming, w.host, a);
    hide Act, Answering;
    forall d | d in w'.air && d.from == p.hostAt && d.packet.kind == SessionAccept
      ensures w'.host.state != Idle && w'.host.remote == Some(d.to) && (d.to == p.clientAt ==> AnsweredNumber(w', d.packet.ack)) {
      AnsweredOnlyGrows(w, w', d.packet.ack);
      if w.host.state != Idle {
        HostKeepsPeer(p.hostTiming, w.host, a);
      }
      if d !in w.air {
        var i :| 0 <= i < |e.out| && d == Datagram(p.hostAt, e.out[i].to, e.out[i].packet);
        OutgoingComesFrom(p.hostTiming, w.host, a, i);
        if Answers(w.host, a, e.session, d.packet) {
          AnswerIsRecorded(p, w, a, w', d.packet);
        } else {
          assert IsPending(w.host.pending, a.packets[i]);
          var q :| q in w.host.pending && w.host.pending[q].packet == a.packets[i];
          assert w.host.state != Idle;
        }
      }
    }
  }

  lemma HostKeepsPending(p: Parties, w: World, a: Action, w': World)
    requires p.hostAt != p.clientAt && HostSideOk(p, w) && HostMoves(p, w, a, w')
    ensures HostPendingOk(p, w')
  {
    hide Act, Answering;
    forall q | q in w'.host.pending && w'.host.pending[q].packet.kind == SessionAccept
      ensures w'.host.state != Idle && (w'.host.remote == Some(p.clientAt) ==> AnsweredNumber(w', w'.host.pending[q].packet.ack)) {
      var accept := w'.host.pending[q].packet;
      AnsweredOnlyGrows(w, w', accept.ack);
      PendingComesFrom(p.hostTiming, w.host, a, q);
      NewAcceptIsSent(p.hostTiming, w.host, a, q);
      if w.host.state != Idle {
        HostKeepsPeer(p.hostTiming, w.host, a);
      }
      if !(q in w.host.pending && w.host.pending[q].packet == accept) {
        AnswerIsRecorded(p, w, a, w', accept);
      }
    }
  }

  lemma HostKeepsWorld(p: Parties, w: World, a: Action, w': World)
    requires p.hostAt != p.clientAt && WorldOk(p, w) && HostMoves(p, w, a, w')
    ensures WorldOk(p, w')
  {
    HostKeepsAnswered(p, w, a, w');
    HostKeepsAccepts(p, w, a, w');
    HostKeepsPending(p, w, a, w');
    ActKeepsLink(p.hostTiming, w.host, a);
    AnsweredOnlyGrows(w, w', w.client.helloSequence);
    if w.host.state != Idle {
      HostKeepsPeer(p.hostTiming, w.host, a);
    }
    assert forall d :: d in w'.air && d.from == p.clientAt ==> d in w.air;
    hide Act, AnsweredOk, AcceptsOk, HostPendingOk, AnsweredNumber, LinkOk, Posted, Answering;
  }

  // ----- The client moves -----

  lemma ClientKeepsHellos(p: Parties, w: World, a: Action, w': World)
    requires ClientSideOk(p, w) && ClientMoves(p, w, a, w')
    ensures HellosOk(p, w')
  {
    hide Act, HelloIssued, LinkOk, LatestOk;
    var e := Act(p.clientTiming, w.client, a);
    forall d | d in w'.air && d.from == p.clientAt && d.packet.kind == SessionHello ensures d.packet in w'.hellos {
      if d !in w.air {
        var i :| 0 <= i < |e.out| && d == Datagram(p.clientAt, e.out[i].to, e.out[i].packet);
        OutgoingHelloIsIssued(p.clientTiming, w.client, a, i);
        if a.Resend? && d.packet in a.packets {
          assert IsPending(w.client.pending, d.packet);
        }
      }
    }
    forall q | q in w'.client.pending && w'.client.pending[q].packet.kind == SessionHello ensures w'.client.pending[q].packet in w'.hellos {
      PendingHelloIsIssued(p.clientTiming, w.client, a, q);
    }
  }

  lemma ClientKeepsLatest(p: Parties, w: World, a: Action, w': World)
    requires ClientSideOk(p, w) && ClientMoves(p, w, a, w')
    ensures LatestOk(w')
  {
    HelloTakesNumber(p.clientTiming, w.client, a);
    hide Act, HelloIssued, LinkOk, HellosOk, Engaged;
  }

  /** While connected a client keeps its peer and its hello number. */
  lemma ConnectedKeepsHello(t: Timing, s: Session, a: Action)
    requires s.role == Client && s.state == Connected && LinkOk(s) && Act(t, s, a).session.state == Connected
    ensures Act(t, s, a).session.helloSequence == s.helloSequence && Act(t, s, a).session.remote == s.remote
  {
    hide TickStep;
    if a.Tick? {
      TickEffect(t, s, a.now, a.sends);
    }
  }

  lemma ClientKeepsConnection(p: Parties, w: World, a: Action, w': World)
    requires p.hostAt != p.clientAt && WorldOk(p, w) && ClientMoves(p, w, a, w')
    ensures ConnectionOk(p, w')
  {
    hide Act, HostPendingOk, LinkOk, HellosOk, LatestOk;
    if w'.client.state == Connected && w'.client.remote == Some(p.hostAt) {
      if w.client.state == Connected {
        ConnectedKeepsHello(p.clientTiming, w.client, a);
      } else {
        ClientConnectsByAccept(p.clientTiming, w.client, a);
        assert Datagram(p.hostAt, p.clientAt, a.packet) in w.air;
      }
    }
  }

  lemma ClientKeepsWorld(p: Parties, w: World, a: Action, w': World)
    requires p.hostAt != p.clientAt && WorldOk(p, w) && ClientMoves(p, w, a, w')
    ensures WorldOk(p, w')
  {
    ClientKeepsHellos(p, w, a, w');
    ClientKeepsLatest(p, w, a, w');
    ClientKeepsConnection(p, w, a, w');
    ActKeepsLink(p.clientTiming, w.client, a);
    assert forall d :: d in w'.air && d.from == p.hostAt ==> d in w.air;
    hide Act, ConnectionOk, LinkOk, HellosOk, LatestOk, Posted;
  }

  // ----- Whole runs -----

  lemma {:induction false} RunKeepsWorld(p: Parties, run: seq<World>, i: nat)
    requires p.hostAt != p.clientAt && IsRun(p, run) && i < |run|
    ensures WorldOk(p, run[i])
  {
    hide WorldOk, HostMoves, ClientMoves, Beginning;
    if i == 0 {
      BeginningIsOk(p);
    } else {
      RunKeepsWorld(p, run, i - 1);
      assert Next(p, run[i - 1], run[i]);
      var a :| HostMoves(p, run[i - 1], a, run[i]) || ClientMoves(p, run[i - 1], a, run[i]);
      if HostMoves(p, run[i - 1], a, run[i]) {
        HostKeepsWorld(p, run[i - 1], a, run[i]);
      } else {
        ClientKeepsWorld(p, run[i - 1], a, run[i]);
      }
    }
  }

  lemma BeginningIsOk(p: Parties)
    ensures WorldOk(p, Beginning())
  {
  }

  // ----- Which hello was answered -----

  /** The hellos issued so far carry ever larger numbers, all below the next one. */
  ghost predicate NumbersRise(w: World) {
    && (forall i, j :: 0 <= i < j < |w.hellos| ==> w.hellos[i].sequence < w.hellos[j].sequence)
    && (forall h :: h in w.hellos ==> h.sequence < w.client.nextSequence)
  }

  lemma IssuingRises(w: World, w': World, h: seq<Packet>)
    requires NumbersRise(w) && w'.hellos == w.hellos + h && w.client.nextSequence <= w'.client.nextSequence && |h| <= 1
    requires h != [] ==> h[0].sequence == w.client.nextSequence < w'.client.nextSequence
    ensures NumbersRise(w')
  {
    forall i, j | 0 <= i < j < |w'.hellos| ensures w'.hellos[i].sequence < w'.hellos[j].sequence {
      assert w.hellos[i] in w.hellos;
    }
  }

  lemma {:induction false} RunRaisesNumbers(p: Parties, run: seq<World>, i: nat)
    requires p.hostAt != p.clientAt && IsRun(p, run) && NumbersLast(run) && i < |run|
    ensures NumbersRise(run[i])
  {
    hide WorldOk, HostMoves, ClientMoves, NumbersRise, HelloIssued, Act;
    if i == 0 {
      NothingIssued();
    } else {
      RunRaisesNumbers(p, run, i - 1);
      RunKeepsWorld(p, run, i - 1);
      assert Next(p, run[i - 1], run[i]) && run[i - 1].client.nextSequence <= run[i].client.nextSequence;
      hide IsRun, NumbersLast;
      StepRaisesNumbers(p, run[i - 1], run[i]);
    }
  }

  lemma StepRaisesNumbers(p: Parties, w: World, w': World)
    requires WorldOk(p, w) && Next(p, w, w') && w.client.nextSequence <= w'.client.nextSequence && NumbersRise(w)
    ensures NumbersRise(w')
  {
    var a :| HostMoves(p, w, a, w') || ClientMoves(p, w, a, w');
    assert w.client.role == Client;
    if ClientMoves(p, w, a, w') {
      ClientRaisesNumbers(p, w, a, w');
    } else {
      hide NumbersRise, Act, WorldOk, Possible, Posted, Answering;
      IssuingRises(w, w', []);
    }
  }

  lemma ClientRaisesNumbers(p: Parties, w: World, a: Action, w': World)
    requires w.client.role == Client && ClientMoves(p, w, a, w') && w.client.nextSequence <= w'.client.nextSequence && NumbersRise(w)
    ensures NumbersRise(w')
  {
    hide NumbersRise, Act, HelloIssued, Possible, Posted, Engaged;
    HelloTakesNumber(p.clientTiming, w.client, a);
    IssuingRises(w, w', HelloIssued(p.clientTiming, w.client, a));
  }

  lemma NothingIssued()
    ensures NumbersRise(Beginning())
  {
  }

  /** Whenever the client is connected to the host, and its numbers have not run out, the host has answered the very
      hello that the client issued last, and has taken this client for its peer. */
  lemma ConnectedMeansAccepted(p: Parties, run: seq<World>, i: nat)
    requires p.hostAt != p.clientAt && IsRun(p, run) && NumbersLast(run) && i < |run|
    requires run[i].client.state == Connected && run[i].client.remote == Some(p.hostAt)
    ensures var w := run[i];
      && w.host.remote == Some(p.clientAt) && w.host.state != Idle
      && w.hellos != [] && w.hellos[|w.hellos| - 1] in w.answered
      && Datagram(p.clientAt, p.hostAt, w.hellos[|w.hellos| - 1]) in w.air
  {
    RunKeepsWorld(p, run, i);
    RunRaisesNumbers(p, run, i);
    hide IsRun, NumbersLast, WorldOk, NumbersRise;
    NumberNamesLatest(p, run[i]);
  }

  lemma NumberNamesLatest(p: Parties, w: World)
    requires WorldOk(p, w) && NumbersRise(w) && w.client.state == Connected && w.client.remote == Some(p.hostAt)
    ensures
      && w.host.remote == Some(p.clientAt) && w.host.state != Idle
      && w.hellos != [] && w.hellos[|w.hellos| - 1] in w.answered
      && Datagram(p.clientAt, p.hostAt, w.hellos[|w.hellos| - 1]) in w.air
  {
    hide AcceptsOk, HostPendingOk, LinkOk;
    var h :| h in w.answered && h.sequence == w.client.helloSequence;
    assert Datagram(p.clientAt, p.hostAt, h) in w.air && h in w.hellos;
    var k :| 0 <= k < |w.hellos| && w.hellos[k] == h;
    assert k == |w.hellos| - 1;
  }

  /** From any reachable world: a client waiting for the host can connect next exactly when an accept of its number is in
      the air, and then it does so without the host doing anything. */
  lemma WaitingClientConnectsExactly(p: Parties, w: World, now: nat)
    requires p.hostAt != p.clientAt && WorldOk(p, w)
    requires w.client.state == Connecting || w.client.state == Reconnecting
    requires w.client.remote == Some(p.hostAt)
    ensures (exists a, w' :: ClientMoves(p, w, a, w') && w'.client.state == Connected)
        <==> exists d :: d in w.air && IsAccept(p, d, w.client.helloSequence)
    ensures forall a, w' :: ClientMoves(p, w, a, w') && w'.client.state == Connected ==>
      w'.host == w.host && w'.hellos == w.hellos && w'.answered == w.answered
  {
    if d :| d in w.air && IsAccept(p, d, w.client.helloSequence) {
      var a := Receive(p.hostAt, d.packet, now, true);
      var e := Act(p.clientTiming, w.client, a);
      assert e.session.state == Connected;
      var w' := w.(client := e.session, air := w.air + Posted(p.clientAt, e.out), hellos := w.hellos + HelloIssued(p.clientTiming, w.client, a));
      assert ClientMoves(p, w, a, w');
    }
    forall a, w' | ClientMoves(p, w, a, w') && w'.client.state == Connected
      ensures w'.host == w.host && w'.hellos == w.hellos && w'.answered == w.answered
      ensures exists d :: d in w.air && IsAccept(p, d, w.client.helloSequence) {
      ClientConnectsByAccept(p.clientTiming, w.client, a);
      hide Act;
      assert IsAccept(p, Datagram(p.hostAt, p.clientAt, a.packet), w.client.helloSequence);
    }
  }

  /** Over a whole run: once the host has left idle it keeps its peer for ever, and once disconnected it stays so. */
  lemma {:induction false} PeerIsForEver(p: Parties, run: seq<World>, i: nat, j: nat)
    requires p.hostAt != p.clientAt && IsRun(p, run) && i <= j < |run| && run[i].host.state != Idle
    ensures run[j].host.state != Idle && run[j].host.remote == run[i].host.remote
    ensures run[i].host.state == Disconnected ==> run[j].host.state == Disconnected
    decreases j
  {
    hide WorldOk, HostMoves, ClientMoves;
    if i < j {
      PeerIsForEver(p, run, i, j - 1);
      RunKeepsWorld(p, run, j - 1);
      assert Next(p, run[j - 1], run[j]);
      hide IsRun;
      StepKeepsPeer(p, run[j - 1], run[j]);
    }
  }

  lemma StepKeepsPeer(p: Parties, w: World, w': World)
    requires WorldOk(p, w) && Next(p, w, w') && w.host.state != Idle
    ensures w'.host.state != Idle && w'.host.remote == w.host.remote && (w.host.state == Disconnected ==> w'.host.state == Disconnected)
  {
    hide Act, HelloIssued;
    var a :| HostMoves(p, w, a, w') || ClientMoves(p, w, a, w');
    HostKeepsPeer(p.hostTiming, w.host, a);
  }

  /** Telemetry never contradicts the state of either party. */
  lemma TelemetryMirrorsState(p: Parties, run: seq<World>, i: nat)
    requires p.hostAt != p.clientAt && IsRun(p, run) && i < |run|
    ensures run[i].host.telemetry.state == LinkOf(run[i].host.state) && run[i].client.telemetry.state == LinkOf(run[i].client.state)
  {
    RunKeepsWorld(p, run, i);
    hide IsRun;
  }

  /** What a party delivers, its peer sent: a delivered packet is an input, and if the peer is the other party it
      was posted by that party to this one. */
  lemma DeliveriesAreGenuine(p: Parties, w: World, self: Address, t: Timing, s: Session, a: Action, packet: Packet)
    requires Possible(p, w, self, s, a) && packet in Act(t, s, a).delivered
    ensures packet.kind == Input && s.state == Connected && s.remote.Some?
    ensures s.remote.value == p.hostAt || s.remote.value == p.clientAt ==> Datagram(s.remote.value, self, packet) in w.air
  {
    hide Act;
    DeliveredAreInputs(t, s, a);
  }

  // ----- Runs that exist -----

  ghost predicate Reachable(p: Parties, w: World) {
    exists run :: IsRun(p, run) && run[|run| - 1] == w
  }

  lemma BeginningIsReachable(p: Parties)
    ensures Reachable(p, Beginning())
  {
    assert IsRun(p, [Beginning()]);
  }

  lemma ReachesOn(p: Parties, w: World, w': World)
    requires Reachable(p, w) && Next(p, w, w')
    ensures Reachable(p, w')
  {
    hide Next, Beginning;
    var run :| IsRun(p, run) && run[|run| - 1] == w;
    var more := run + [w'];
    forall i | 0 < i < |more| ensures Next(p, more[i - 1], more[i]) {
      if i < |run| {
        assert more[i - 1] == run[i - 1] && more[i] == run[i];
      } else {
        assert more[i - 1] == w && more[i] == w';
      }
    }
    assert IsRun(p, more);
  }

  /** The world after the client's action. */
  function Moved(p: Parties, w: World, a: Action): World {
    var e := Act(p.clientTiming, w.client, a);
    w.(client := e.session, air := w.air + Posted(p.clientAt, e.out), hellos := w.hellos + HelloIssued(p.clientTiming, w.client, a))
  }

  lemma ClientGoesOn(p: Parties, w: World, a: Action)
    requires Reachable(p, w) && Possible(p, w, p.clientAt, w.client, a)
    ensures Reachable(p, Moved(p, w, a))
  {
    hide Act, HelloIssued, Reachable, Possible, Posted;
    assert ClientMoves(p, w, a, Moved(p, w, a));
    ReachesOn(p, w, Moved(p, w, a));
  }

  lemma PossibleAnyTime(p: Parties, w: World, now: nat, sends: bool)
    ensures Possible(p, w, p.clientAt, w.client, Connect(p.hostAt, now, sends)) && Possible(p, w, p.clientAt, w.client, Leave(now, sends))
  {
  }

  lemma PostedOne(from: Address, o: Outgoing)
    ensures Posted(from, [o]) == {Datagram(from, o.to, o.packet)}
  {
    assert [o][0] == o;
    assert Datagram(from, [o][0].to, [o][0].packet) in Posted(from, [o]);
  }

  /** A client with its first hello in the air. */
  ghost predicate HelloPosted(p: Parties, w: World, now: nat) {
    var hello := Control(SessionHello, 1, 0, now);
    && w.host == Start(Host) && w.client.state == Connecting && w.client.remote == Some(p.hostAt) && w.client.role == Client
    && w.client.nextSequence == 2 && w.client.helloSequence == 1 && w.client.pending == map[1 := Pending(hello, now)]
    && w.hellos == [hello] && w.answered == {} && w.air == {Datagram(p.clientAt, p.hostAt, hello)}
  }

  /** The host has answered it. */
  ghost predicate AcceptPosted(p: Parties, w: World, now: nat) {
    var hello, accept := Control(SessionHello, 1, 0, now), Control(SessionAccept, 1, 1, now);
    && w.host.state == Connected && w.client.state == Connecting && w.client.remote == Some(p.hostAt) && w.client.role == Client
    && w.client.nextSequence == 2 && w.client.helloSequence == 1 && w.client.pending == map[1 := Pending(hello, now)]
    && w.hellos == [hello] && w.answered == {hello} && Datagram(p.hostAt, p.clientAt, accept) in w.air
  }

  /** Both are connected, and nothing of the client's waits to be acknowledged. */
  ghost predicate BothConnected(p: Parties, w: World, now: nat) {
    var hello, accept := Control(SessionHello, 1, 0, now), Control(SessionAccept, 1, 1, now);
    && w.host.state == w.client.state == Connected && w.client.remote == Some(p.hostAt) && w.client.role == Client
    && w.client.nextSequence == 3 && w.client.pending == map[]
    && w.hellos == [hello] && w.answered == {hello} && Datagram(p.hostAt, p.clientAt, accept) in w.air
  }

  lemma FirstHello(p: Parties, now: nat)
    requires p.hostAt.port != 0
    ensures HelloPosted(p, Moved(p, Beginning(), Connect(p.hostAt, now, true)), now)
  {
    var e := Act(p.clientTiming, Start(Client), Connect(p.hostAt, now, true));
    assert e.out == [Outgoing(p.hostAt, Control(SessionHello, 1, 0, now))];
    PostedOne(p.clientAt, e.out[0]);
  }

  lemma FirstAccept(p: Parties, w: World, now: nat) returns (w': World)
    requires p.hostAt != p.clientAt && HelloPosted(p, w, now)
    ensures Next(p, w, w') && AcceptPosted(p, w', now)
  {
    var a := Receive(p.clientAt, Control(SessionHello, 1, 0, now), now, true);
    var e := Act(p.hostTiming, Start(Host), a);
    assert e.out == [Outgoing(p.clientAt, Control(SessionAccept, 1, 1, now))] && e.session.state == Connected;
    PostedOne(p.hostAt, e.out[0]);
    w' := w.(host := e.session, air := w.air + Posted(p.hostAt, e.out), answered := w.answered + Answering(p, a, e));
    assert HostMoves(p, w, a, w');
  }

  lemma TakesAccept(p: Parties, w: World, now: nat)
    requires AcceptPosted(p, w, now)
    ensures Possible(p, w, p.clientAt, w.client, Receive(p.hostAt, Control(SessionAccept, 1, 1, now), now, true))
    ensures BothConnected(p, Moved(p, w, Receive(p.hostAt, Control(SessionAccept, 1, 1, now), now, true)), now)
  {
    hide Posted;
    assert w.client.pending - {1} == map[];
  }

  /** When nothing is lost, a hello and its accept connect both parties. */
  lemma HandshakeConnects(p: Parties, now: nat) returns (w: World)
    requires p.hostAt != p.clientAt && p.hostAt.port != 0
    ensures Reachable(p, w) && BothConnected(p, w, now)
  {
    hide *;
    BeginningIsReachable(p);
    PossibleAnyTime(p, Beginning(), now, true);
    ClientGoesOn(p, Beginning(), Connect(p.hostAt, now, true));
    FirstHello(p, now);
    w := Moved(p, Beginning(), Connect(p.hostAt, now, true));
    var answered := FirstAccept(p, w, now);
    ReachesOn(p, w, answered);
    TakesAccept(p, answered, now);
    ClientGoesOn(p, answered, Receive(p.hostAt, Control(SessionAccept, 1, 1, now), now, true));
    w := Moved(p, answered, Receive(p.hostAt, Control(SessionAccept, 1, 1, now), now, true));
  }

  // ----- When the numbers run out -----

  /** The client has left; the accept of its first hello is still in the air, and no other hello was answered. */
  ghost predicate Adrift(p: Parties, w: World, next: int) {
    && w.client.role == Client && w.client.state == Disconnected && w.client.nextSequence == next
    && w.answered == {Control(SessionHello, 1, 0, 1)} && Datagram(p.hostAt, p.clientAt, Control(SessionAccept, 1, 1, 1)) in w.air
  }

  lemma LeavesNow(p: Parties, w: World)
    requires BothConnected(p, w, 1)
    ensures var w' := Moved(p, w, Leave(1, true)); Adrift(p, w', 4) && w'.client.pending == map[]
  {
    hide Posted;
  }

  /** A connect that the transport refuses uses up a number. Number 0 counts as no hello, and is left waiting. */
  lemma FailedConnect(p: Parties, w: World, next: u32)
    requires p.hostAt.port != 0 && Adrift(p, w, next) && w.client.pending == map[]
    ensures var w' := Moved(p, w, Connect(p.hostAt, 1, false));
      && Adrift(p, w', Wrap(next + 1))
      && w'.client.pending.Keys == if next == 0 then {0} else {}
  {
    hide Wrap, Posted;
    var hello := Control(SessionHello, next, 0, 1);
    assert map[next := Pending(hello, 1)] - {next} == map[];
  }

  lemma {:induction false} FailedConnects(p: Parties, w: World, next: u32) returns (w': World)
    requires p.hostAt.port != 0 && Reachable(p, w) && Adrift(p, w, next) && w.client.pending == map[] && next > 0
    ensures Reachable(p, w') && Adrift(p, w', 0) && w'.client.pending == map[]
    decreases TWO32 - next
  {
    hide Moved, Possible, Adrift, Reachable;
    FailedConnect(p, w, next);
    PossibleAnyTime(p, w, 1, false);
    ClientGoesOn(p, w, Connect(p.hostAt, 1, false));
    w' := Moved(p, w, Connect(p.hostAt, 1, false));
    if next + 1 < TWO32 {
      w' := FailedConnects(p, w', next + 1);
    }
  }

  /** The first number again: a new hello, waiting for an accept of number 1. */
  lemma ConnectsAgain(p: Parties, w: World)
    requires p.hostAt.port != 0 && Adrift(p, w, 1) && w.client.pending.Keys == {0}
    ensures WaitsAgain(p, Moved(p, w, Connect(p.hostAt, 2, true)))
  {
    hide Posted;
    assert 1 !in w.client.pending;
    assert Control(SessionHello, 1, 0, 2) != Control(SessionHello, 1, 0, 1);
  }

  ghost predicate WaitsAgain(p: Parties, w: World) {
    && w.client.role == Client && w.client.state == Connecting && w.client.helloSequence == 1 && w.client.remote == Some(p.hostAt)
    && w.hellos != [] && w.hellos[|w.hellos| - 1] !in w.answered
    && Datagram(p.hostAt, p.clientAt, Control(SessionAccept, 1, 1, 1)) in w.air
  }

  lemma TakesOldAccept(p: Parties, w: World)
    requires WaitsAgain(p, w)
    ensures var a := Receive(p.hostAt, Control(SessionAccept, 1, 1, 1), 2, true);
      && Possible(p, w, p.clientAt, w.client, a)
      && var w' := Moved(p, w, a);
      && w'.client.state == Connected && w'.client.remote == Some(p.hostAt)
      && w'.hellos != [] && w'.hellos[|w'.hellos| - 1] !in w'.answered
  {
    hide Posted;
  }

  /** The numbers must last: a client that has used them all up can connect, on the accept of a hello it sent long ago,
      to a host that has never answered its latest one. */
  lemma OldAcceptConnects(p: Parties) returns (w: World)
    requires p.hostAt != p.clientAt && p.hostAt.port != 0
    ensures Reachable(p, w)
    ensures w.client.state == Connected && w.client.remote == Some(p.hostAt)
    ensures w.hellos != [] && w.hellos[|w.hellos| - 1] !in w.answered
  {
    hide Moved, Possible, Adrift, Reachable, BothConnected, WaitsAgain, Wrap, Control;
    w := HandshakeConnects(p, 1);
    PossibleAnyTime(p, w, 1, true);
    LeavesNow(p, w);
    ClientGoesOn(p, w, Leave(1, true));
    w := FailedConnects(p, Moved(p, w, Leave(1, true)), 4);
    PossibleAnyTime(p, w, 1, false);
    FailedConnect(p, w, 0);
    ZeroThenOne();
    ClientGoesOn(p, w, Connect(p.hostAt, 1, false));
    w := Moved(p, w, Connect(p.hostAt, 1, false));
    PossibleAnyTime(p, w, 2, true);
    ConnectsAgain(p, w);
    ClientGoesOn(p, w, Connect(p.hostAt, 2, true));
    w := Moved(p, w, Connect(p.hostAt, 2, true));
    TakesOldAccept(p, w);
    ClientGoesOn(p, w, Receive(p.hostAt, Control(SessionAccept, 1, 1, 1), 2, true));
    w := Moved(p, w, Receive(p.hostAt, Control(SessionAccept, 1, 1, 1), 2, true));
  }

  lemma ZeroThenOne()
    ensures Wrap(0 + 1) == 1
  {
  }
}
