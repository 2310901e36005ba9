/** The retransmission queue of control packets in core/network_protocol.cpp.

    `history` records everything that was asked of the queue and everything it sent again. The queue holds
    exactly what that history leaves outstanding, and never repeats a packet early. */
module ReliableQueue {
  import opened Outcomes
  import opened Words
  import opened PacketCodec

  predicate IsReliableControl(kind: PacketKind) {
    kind == SessionHello || kind == SessionAccept || kind == Disconnect
  }

  datatype Pending = Pending(packet: Packet, lastSend: nat)

  datatype QueueEvent = Tracked(packet: Packet, at: nat) | Acknowledged(sequence: u32) | Resent(packet: Packet, at: nat)

  // ----- Histories -----

  /** What a history leaves to be acknowledged. */
  function Outstanding(history: seq<QueueEvent>): map<u32, Pending> {
    if history == [] then map[]
    else
      After(Outstanding(history[..|history| - 1]), history[|history| - 1])
  }

  function After(pending: map<u32, Pending>, e: QueueEvent): map<u32, Pending> {
    match e
    case Tracked(p, at) => pending[p.sequence := Pending(p, at)]
    case Resent(p, at) => pending[p.sequence := Pending(p, at)]
    case Acknowledged(s) => pending - {s}
  }

  predicate Sends(e: QueueEvent, s: u32) {
    (e.Tracked? || e.Resent?) && e.packet.sequence == s
  }

  /** A packet is tracked only while its sequence is free, and sent again only while it is outstanding and its
      last send is old enough. */
  ghost predicate Allowed(retry: nat, before: seq<QueueEvent>, e: QueueEvent) {
    match e
    case Tracked(p, at) => IsReliableControl(p.kind) && p.sequence !in Outstanding(before)
    case Resent(p, at) =>
      var o := Outstanding(before);
      p.sequence in o && o[p.sequence].packet == p && o[p.sequence].lastSend + retry <= at
    case Acknowledged(_) => true
  }

  ghost predicate HistoryOk(retry: nat, history: seq<QueueEvent>) {
    forall i {:trigger history[i]} :: 0 <= i < |history| ==> Allowed(retry, history[..i], history[i])
  }

  lemma HistoryGrows(retry: nat, history: seq<QueueEvent>, e: QueueEvent)
    requires HistoryOk(retry, history) && Allowed(retry, history, e)
    ensures HistoryOk(retry, history + [e])
    ensures Outstanding(history + [e]) == After(Outstanding(history), e)
  {
    hide Allowed;
    var next := history + [e];
    assert next[..|history|] == history;
    forall i | 0 <= i < |next| ensures Allowed(retry, next[..i], next[i]) {
      if i < |history| {
        assert next[..i] == history[..i] && next[i] == history[i];
      }
    }
  }

  lemma HistoryShrinks(retry: nat, history: seq<QueueEvent>, n: nat)
    requires HistoryOk(retry, history) && n <= |history|
    ensures HistoryOk(retry, history[..n])
  {
    hide Allowed;
    forall i | 0 <= i < n ensures Allowed(retry, history[..n][..i], history[..n][i]) {
      assert history[..n][..i] == history[..i] && history[..n][i] == history[i];
    }
  }

  ghost predicate NotAcknowledgedFrom(history: seq<QueueEvent>, i: nat, s: u32) {
    forall k :: i < k < |history| ==> history[k] != Acknowledged(s)
  }

  lemma NotAcknowledgedGrows(history: seq<QueueEvent>, i: nat, s: u32)
    requires i + 1 < |history| && history[|history| - 1] != Acknowledged(s)
    ensures NotAcknowledgedFrom(history, i, s) == NotAcknowledgedFrom(history[..|history| - 1], i, s)
  {
    var before := history[..|history| - 1];
    if NotAcknowledgedFrom(before, i, s) {
      forall k | i < k < |history| ensures history[k] != Acknowledged(s) {
        if k < |before| {
          assert history[k] == before[k];
        }
      }
    }
  }

  ghost predicate TrackedAt(history: seq<QueueEvent>, i: nat, s: u32, p: Packet) {
    i < |history| && history[i].Tracked? && history[i].packet == p && p.sequence == s && NotAcknowledgedFrom(history, i, s)
  }

  /** `p` was tracked under `s` and `s` not acknowledged since. */
  ghost predicate HeldFor(history: seq<QueueEvent>, s: u32, p: Packet) {
    exists i: nat :: TrackedAt(history, i, s, p)
  }

  lemma HeldForGrows(history: seq<QueueEvent>, s: u32, p: Packet)
    requires history != []
    ensures var n := |history| - 1;
      HeldFor(history, s, p) <==> history[n] != Acknowledged(s) && (HeldFor(history[..n], s, p) || TrackedAt(history, n, s, p))
  {
    var n := |history| - 1;
    if history[n] != Acknowledged(s) {
      forall i | 0 <= i < n ensures TrackedAt(history, i, s, p) == TrackedAt(history[..n], i, s, p) {
        NotAcknowledgedGrows(history, i, s);
      }
      hide NotAcknowledgedFrom;
      if i: nat :| TrackedAt(history[..n], i, s, p) {
        assert TrackedAt(history, i, s, p);
      }
      if i: nat :| TrackedAt(history, i, s, p) && i < n {
        assert TrackedAt(history[..n], i, s, p);
      }
    }
  }

  /** The queue holds exactly what was tracked and not acknowledged since. */
  lemma {:induction false} OutstandingIsTrackedNotAcknowledged(retry: nat, history: seq<QueueEvent>, s: u32, p: Packet)
    requires HistoryOk(retry, history)
    ensures s in Outstanding(history) && Outstanding(history)[s].packet == p <==> HeldFor(history, s, p)
    decreases |history|
  {
    if history != [] {
      var n := |history| - 1;
      HistoryShrinks(retry, history, n);
      assert Allowed(retry, history[..n], history[n]);
      hide HistoryOk, HeldFor;
      OutstandingIsTrackedNotAcknowledged(retry, history[..n], s, p);
      HeldForGrows(history, s, p);
      if history[n].Resent? && s in Outstanding(history[..n]) {
        OutstandingIsTrackedNotAcknowledged(retry, history[..n], s, Outstanding(history[..n])[s].packet);
      }
    }
  }

  /** Between two sends of one packet lies at least the retry interval, whatever the clock did. */
  lemma SendsAreSpaced(retry: nat, history: seq<QueueEvent>, i: nat, j: nat, s: u32)
    requires HistoryOk(retry, history) && i < j < |history|
    requires Sends(history[i], s) && Sends(history[j], s) && NotAcknowledgedFrom(history[..j], i, s)
    ensures history[j].Resent? && history[i].at + retry <= history[j].at
  {
    var before := history[..j];
    assert Allowed(retry, before, history[j]);
    HistoryShrinks(retry, history, j);
    LastSend(retry, before, i, s);
  }

  lemma LaterSendsAreLater(retry: nat, history: seq<QueueEvent>, s: u32, at: nat)
    requires history != [] && s in Outstanding(history[..|history| - 1]) && Outstanding(history[..|history| - 1])[s].lastSend >= at
    requires var e := history[|history| - 1]; e != Acknowledged(s) && Allowed(retry, history[..|history| - 1], e)
    ensures s in Outstanding(history) && Outstanding(history)[s].lastSend >= at
  {
  }

  lemma {:induction false} LastSend(retry: nat, history: seq<QueueEvent>, i: nat, s: u32)
    requires HistoryOk(retry, history) && i < |history| && Sends(history[i], s) && NotAcknowledgedFrom(history, i, s)
    ensures s in Outstanding(history) && Outstanding(history)[s].lastSend >= history[i].at
    decreases |history|
  {
    var n := |history| - 1;
    if i < n {
      HistoryShrinks(retry, history, n);
      assert Allowed(retry, history[..n], history[n]) && history[n] != Acknowledged(s);
      NotAcknowledgedGrows(history, i, s);
      hide HistoryOk, NotAcknowledgedFrom, Allowed, Outstanding;
      LastSend(retry, history[..n], i, s);
      LaterSendsAreLater(retry, history, s, history[i].at);
    }
  }

  // ----- The queue -----

  predicate IsDue(p: Pending, now: nat, retry: nat) {
    now >= p.lastSend && now - p.lastSend >= retry
  }

  function Renew(p: Pending, now: nat, retry: nat): Pending {
    if IsDue(p, now, retry) then p.(lastSend := now) else p
  }

  function Renewed(pending: map<u32, Pending>, now: nat, retry: nat): map<u32, Pending> {
    map s | s in pending :: Renew(pending[s], now, retry)
  }

  function ResentAll(due: seq<Packet>, now: nat): seq<QueueEvent> {
    if due == [] then [] else ResentAll(due[..|due| - 1], now) + [Resent(due[|due| - 1], now)]
  }

  lemma LeastExists(keys: set<u32>) returns (least: u32)
    requires keys != {}
    ensures least in keys && forall t :: t in keys ==> least <= t
    decreases |keys|
  {
    var s :| s in keys;
    var rest := keys - {s};
    assert forall t :: t in keys ==> t == s || t in rest;
    least := s;
    if rest != {} {
      var other := LeastExists(rest);
      least := if other < s then other else s;
    }
  }

  /** What is due of the given keys: their packets, sent again in ascending order. */
  ghost predicate DueOf(pending: map<u32, Pending>, keys: set<u32>, now: nat, retry: nat, due: seq<Packet>) {
    && (forall i, j :: 0 <= i < j < |due| ==> due[i].sequence < due[j].sequence)
    && (forall p :: p in due <==> p.sequence in keys && p.sequence in pending && pending[p.sequence].packet == p && IsDue(pending[p.sequence], now, retry))
  }

  /** A pass over the queue, with the keys in `todo` still to be looked at. */
  ghost predicate PassOk(before: map<u32, Pending>, pending: map<u32, Pending>, todo: set<u32>, now: nat, retry: nat, due: seq<Packet>) {
    && todo <= before.Keys == pending.Keys
    && (forall s, t :: s in todo && t in before && t !in todo ==> t < s)
    && DueOf(before, before.Keys - todo, now, retry, due)
    && (forall s :: s in before ==> pending[s] == if s in todo then before[s] else Renew(before[s], now, retry))
  }

  lemma PassStep(before: map<u32, Pending>, pending: map<u32, Pending>, todo: set<u32>, now: nat, retry: nat, due: seq<Packet>, s: u32)
    requires PassOk(before, pending, todo, now, retry, due)
    requires s in todo && (forall t :: t in todo ==> s <= t) && before[s].packet.sequence == s
    ensures if IsDue(before[s], now, retry)
            then PassOk(before, pending[s := Pending(before[s].packet, now)], todo - {s}, now, retry, due + [before[s].packet])
            else PassOk(before, pending, todo - {s}, now, retry, due)
  {
    hide IsDue;
    assert before.Keys - (todo - {s}) == before.Keys - todo + {s};
    forall p | p in due ensures p.sequence < s {
      assert p.sequence in before && p.sequence !in todo;
    }
  }

  lemma NothingResent(now: nat)
    ensures ResentAll([], now) == []
  {
  }

  lemma OneMoreResent(due: seq<Packet>, p: Packet, now: nat)
    ensures ResentAll(due + [p], now) == ResentAll(due, now) + [Resent(p, now)]
  {
    assert (due + [p])[..|due|] == due;
  }

  lemma PassStarts(pending: map<u32, Pending>, now: nat, retry: nat)
    ensures PassOk(pending, pending, pending.Keys, now, retry, [])
  {
  }

  lemma PassEnds(before: map<u32, Pending>, pending: map<u32, Pending>, now: nat, retry: nat, due: seq<Packet>)
    requires PassOk(before, pending, {}, now, retry, due)
    ensures DueOf(before, before.Keys, now, retry, due) && pending == Renewed(before, now, retry)
  {
    assert before.Keys - {} == before.Keys;
  }

  lemma PassKeys(before: map<u32, Pending>, pending: map<u32, Pending>, todo: set<u32>, now: nat, retry: nat, due: seq<Packet>)
    requires PassOk(before, pending, todo, now, retry, due)
    ensures forall s :: s in todo ==> s in before && s in pending && pending[s] == before[s]
  {
  }

  class ControlReliabilityQueue {
    const retryInterval: nat
    var pending: map<u32, Pending>
    ghost var history: seq<QueueEvent>

    ghost predicate Valid()
      reads this
    {
      && HistoryOk(retryInterval, history) && pending == Outstanding(history)
      && forall s :: s in pending ==> pending[s].packet.sequence == s && IsReliableControl(pending[s].packet.kind)
    }

    constructor (retryInterval: nat)
      ensures Valid() && history == [] && this.retryInterval == retryInterval
    {
      this.retryInterval := retryInterval;
      pending, history := map[], [];
    }

    method Track(packet: Packet, now: nat) returns (r: Result<()>)
      requires Valid()
      modifies this
      ensures Valid()
      ensures if IsReliableControl(packet.kind) && packet.sequence !in old(pending)
              then r == Success(()) && history == old(history) + [Tracked(packet, now)]
                   && pending == old(pending)[packet.sequence := Pending(packet, now)]
              else r == Failure(InvalidArgument) && history == old(history) && pending == old(pending)
    {
      if !IsReliableControl(packet.kind) {
        return Failure(InvalidArgument);
      }
      if packet.sequence in pending {
        return Failure(InvalidArgument);
      }
      HistoryGrows(retryInterval, history, Tracked(packet, now));
      pending := pending[packet.sequence := Pending(packet, now)];
      history := history + [Tracked(packet, now)];
      r := Success(());
    }

    method Acknowledge(sequence: u32)
      requires Valid()
      modifies this
      ensures Valid()
      ensures pending == old(pending) - {sequence} && history == old(history) + [Acknowledged(sequence)]
    {
      HistoryGrows(retryInterval, history, Acknowledged(sequence));
      pending := pending - {sequence};
      history := history + [Acknowledged(sequence)];
    }

    /** Everything due is sent again, in ascending order of sequence, and its time of sending renewed. */
    method DueRetransmits(now: nat) returns (due: seq<Packet>)
      requires Valid()
      modifies this
      ensures Valid()
      ensures DueOf(old(pending), old(pending).Keys, now, retryInterval, due)
      ensures pending == Renewed(old(pending), now, retryInterval)
      ensures history == old(history) + ResentAll(due, now)
    {
      hide PassOk, DueOf, HistoryOk, Outstanding, Renewed, ResentAll;
      ghost var before := pending;
      due := [];
      var todo := pending.Keys;
      PassStarts(pending, now, retryInterval);
      NothingResent(now);
      while todo != {}
        invariant Valid() && PassOk(before, pending, todo, now, retryInterval, due)
        invariant history == old(history) + ResentAll(due, now)
        decreases |todo|
      {
        ghost var least := LeastExists(todo);
        var s :| s in todo && forall t :: t in todo ==> s <= t;
        PassKeys(before, pending, todo, now, retryInterval, due);
        PassStep(before, pending, todo, now, retryInterval, due, s);
        todo := todo - {s};
        if now < pending[s].lastSend {
          continue;
        }
        if now - pending[s].lastSend < retryInterval {
          continue;
        }
        OneMoreResent(due, pending[s].packet, now);
        due := due + [pending[s].packet];
        SendAgain(s, now);
      }
      PassEnds(before, pending, now, retryInterval, due);
    }

    method SendAgain(s: u32, now: nat)
      requires Valid() && s in pending && IsDue(pending[s], now, retryInterval)
      modifies this
      ensures Valid() && pending == old(pending)[s := Pending(old(pending)[s].packet, now)]
      ensures history == old(history) + [Resent(old(pending)[s].packet, now)]
    {
      var packet := pending[s].packet;
      HistoryGrows(retryInterval, history, Resent(packet, now));
      pending := pending[s := Pending(packet, now)];
      history := history + [Resent(packet, now)];
    }
  }
}
