/** The rollback netcode session of core/rollback.cpp.

    The specification is the plain in-order run `Replay`: it starts from the first state and
    steps every frame with the local input given for that frame and the last remote input known
    at or before it. `RollbackSession` predicts, snapshots, rewinds and replays; its invariant
    says that it nevertheless always sits exactly where `Replay` would. */
module Rollback {
  import opened Outcomes

  datatype Input = Input(buttons: nat, axisX: int, axisY: int)

  const NEUTRAL := Input(0, 0, 0)

  // ----- Specification: the in-order run -----

  /** The last remote input known at or before `frame`. */
  ghost function LastKnown(remotes: map<nat, Input>, frame: nat): Input {
    if frame in remotes then remotes[frame]
    else if frame == 0 then NEUTRAL
    else LastKnown(remotes, frame - 1)
  }

  ghost function Replay<S>(step: (S, Input, Input) -> S, first: S, locals: seq<Input>,
                           remotes: map<nat, Input>, frames: nat): S
    requires frames <= |locals|
  {
    if frames == 0 then first
    else step(Replay(step, first, locals, remotes, frames - 1), locals[frames - 1], LastKnown(remotes, frames - 1))
  }

  lemma {:induction false} LastKnownIsFloor(remotes: map<nat, Input>, frame: nat, key: nat)
    requires key in remotes && key <= frame
    requires forall k :: key < k <= frame ==> k !in remotes
    ensures LastKnown(remotes, frame) == remotes[key]
    decreases frame
  {
    if key < frame {
      LastKnownIsFloor(remotes, frame - 1, key);
    }
  }

  lemma {:induction false} LastKnownDefault(remotes: map<nat, Input>, frame: nat)
    requires forall k :: k in remotes ==> frame < k
    ensures LastKnown(remotes, frame) == NEUTRAL
  {
    if frame > 0 {
      LastKnownDefault(remotes, frame - 1);
    }
  }

  /** An input for `at` never changes what is known before `at`, and changes nothing at all when it
      repeats what was already predicted for `at`. */
  lemma {:induction false} LastKnownAfterUpdate(remotes: map<nat, Input>, at: nat, remote: Input, frame: nat)
    ensures frame < at || remote == LastKnown(remotes, at)
            ==> LastKnown(remotes[at := remote], frame) == LastKnown(remotes, frame)
    decreases frame
  {
    if frame > 0 && frame != at {
      LastKnownAfterUpdate(remotes, at, remote, frame - 1);
    }
  }

  // ----- Histories of accepted calls -----

  datatype Event = Advanced(local: Input) | Delivered(frame: nat, remote: Input)

  ghost function Locals(history: seq<Event>): seq<Input> {
    if history == [] then []
    else
      var before := Locals(history[..|history| - 1]);
      match history[|history| - 1]
      case Advanced(local) => before + [local]
      case Delivered(_, _) => before
  }

  ghost function Remotes(history: seq<Event>): map<nat, Input> {
    if history == [] then map[]
    else
      var before := Remotes(history[..|history| - 1]);
      match history[|history| - 1]
      case Advanced(_) => before
      case Delivered(frame, remote) => before[frame := remote]
  }

  /** No frame is delivered with two different inputs; the same delivery may be repeated. */
  ghost predicate Unambiguous(history: seq<Event>) {
    forall i, j :: 0 <= i < j < |history| && history[i].Delivered? && history[j].Delivered? && history[i].frame == history[j].frame
                   ==> history[i].remote == history[j].remote
  }

  lemma {:induction false} RemotesOfUnambiguous(history: seq<Event>, frame: nat, remote: Input)
    requires Unambiguous(history)
    ensures Delivered(frame, remote) in history <==> frame in Remotes(history) && Remotes(history)[frame] == remote
    decreases |history|
  {
    if history != [] {
      var last := |history| - 1;
      assert history == history[..last] + [history[last]];
      RemotesOfUnambiguous(history[..last], frame, remote);
    }
  }

  /** Every accepted order of the same local inputs and the same remote deliveries, repeated or not,
      early or late, reaches the same simulation state. */
  lemma DeliveryOrderDoesNotMatter<S>(step: (S, Input, Input) -> S, first: S, h0: seq<Event>, h1: seq<Event>)
    requires Unambiguous(h0) && Unambiguous(h1)
    requires Locals(h0) == Locals(h1)
    requires forall frame, remote :: Delivered(frame, remote) in h0 <==> Delivered(frame, remote) in h1
    ensures Replay(step, first, Locals(h0), Remotes(h0), |Locals(h0)|)
         == Replay(step, first, Locals(h1), Remotes(h1), |Locals(h1)|)
  {
    var m0, m1 := Remotes(h0), Remotes(h1);
    forall frame | frame in m0 ensures frame in m1 && m0[frame] == m1[frame] {
      RemotesOfUnambiguous(h0, frame, m0[frame]);
      RemotesOfUnambiguous(h1, frame, m0[frame]);
    }
    forall frame | frame in m1 ensures frame in m0 {
      RemotesOfUnambiguous(h1, frame, m1[frame]);
      RemotesOfUnambiguous(h0, frame, m1[frame]);
    }
    assert m0 == m1;
  }

  // ----- The simulation the session drives -----

  /** IRollbackSimulation: a deterministic step with exact save and load. Loading and stepping may
      fail at any call, and a failed call may leave any state behind; `damaged` records that the
      state has not been restored since. `emitted` lists the side effects of the steps that completed. */
  class Simulation<S(0,!new)> {
    const stepFn: (S, Input, Input) -> S
    var state: S
    ghost var emitted: seq<Input>
    ghost var damaged: bool

    constructor (stepFn: (S, Input, Input) -> S, state: S)
      ensures this.stepFn == stepFn && this.state == state
      ensures emitted == [] && !damaged
    {
      this.stepFn := stepFn;
      this.state := state;
      emitted := [];
      damaged := false;
    }

    method LoadState(saved: S) returns (r: Result<()>)
      modifies this
      ensures emitted == old(emitted)
      ensures r.Success? ==> state == saved && !damaged
      ensures r.Failure? ==> damaged
    {
      if * {
        state, damaged := saved, false;
        r := Success(());
      } else {
        state := *;
        damaged := true;
        var error: ErrorCode := *;
        r := Failure(error);
      }
    }

    method StepFrame(local: Input, remote: Input, emitSideEffects: bool) returns (r: Result<()>)
      modifies this
      ensures r.Success? ==> state == stepFn(old(state), local, remote) && damaged == old(damaged)
      ensures r.Success? ==> emitted == old(emitted) + if emitSideEffects then [local] else []
      ensures r.Failure? ==> damaged && emitted == old(emitted)
    {
      if * {
        state := stepFn(state, local, remote);
        emitted := emitted + if emitSideEffects then [local] else [];
        r := Success(());
      } else {
        state := *;
        damaged := true;
        var error: ErrorCode := *;
        r := Failure(error);
      }
    }
  }

  // ----- The session -----

  datatype FrameRecord<S> = FrameRecord(snapshotBefore: S, local: Input, remoteUsed: Input, predictedRemote: bool)

  datatype Telemetry = Telemetry(predictedFrames: nat, lastRollbackDepth: nat, maxRollbackDepth: nat)

  predicate IsHexDigit(c: char) {
    '0' <= c <= '9' || 'a' <= c <= 'f' || 'A' <= c <= 'F'
  }

  ghost predicate Mismatch(local: map<nat, string>, remote: map<nat, string>, frame: nat) {
    frame in remote && frame in local && local[frame] != remote[frame]
  }

  ghost predicate IsLeastMismatch(local: map<nat, string>, remote: map<nat, string>, desync: Option<nat>) {
    match desync
    case None => forall f :: f in remote ==> !Mismatch(local, remote, f)
    case Some(frame) => Mismatch(local, remote, frame) && forall f :: f in remote && f < frame ==> !Mismatch(local, remote, f)
  }

  lemma {:induction false} GreatestExists(s: set<nat>) returns (k: nat)
    requires s != {}
    ensures k in s && forall j :: j in s ==> j <= k
    decreases |s|
  {
    k :| k in s;
    if s != {k} {
      var rest := s - {k};
      assert s == rest + {k};
      var m := GreatestExists(rest);
      k := if k <= m then m else k;
    }
  }

  lemma {:induction false} LeastExists(s: set<nat>) returns (k: nat)
    requires s != {}
    ensures k in s && forall j :: j in s ==> k <= j
    decreases |s|
  {
    k :| k in s;
    if s != {k} {
      var rest := s - {k};
      assert s == rest + {k};
      var m := LeastExists(rest);
      k := if m <= k then m else k;
    }
  }

  /** The first frame that a window of `window` frames before `current` still covers. */
  function WindowStart(current: nat, window: nat): nat {
    if current > window then current - window else 0
  }

  /** An in-order run: where it starts, and everything known about its inputs. */
  datatype Run<!S> = Run(step: (S, Input, Input) -> S, first: S, locals: seq<Input>, remotes: map<nat, Input>)
  {
    ghost function At(n: nat): S
      requires n <= |locals|
    {
      Replay(step, first, locals, remotes, n)
    }

    ghost function RecordAt(f: nat): FrameRecord<S>
      requires f < |locals|
    {
      FrameRecord(At(f), locals[f], LastKnown(remotes, f), f !in remotes)
    }

    /** Records for exactly the frames `from` up to the present, in agreement with this run before `n`. */
    ghost predicate RetainsBefore(n: nat, from: nat, frames: map<nat, FrameRecord<S>>) {
      && (forall f :: f in frames <==> from <= f < |locals|)
      && (forall f {:trigger frames[f]} :: f in frames ==> frames[f].local == locals[f])
      && (forall f {:trigger frames[f]} :: f in frames && f < n ==> frames[f] == RecordAt(f))
    }

    /** A hash for every frame so far, in agreement with this run before `n`. */
    ghost predicate HashesBefore(n: nat, hashFn: S -> string, hashes: map<nat, string>) {
      && (forall f :: f in hashes <==> 0 <= f < |locals|)
      && (forall f {:trigger hashes[f]} :: f in hashes && f < n ==> hashes[f] == hashFn(At(f + 1)))
    }

    ghost predicate Retains(from: nat, frames: map<nat, FrameRecord<S>>) {
      RetainsBefore(|locals|, from, frames)
    }

    ghost predicate Hashes(hashFn: S -> string, hashes: map<nat, string>) {
      HashesBefore(|locals|, hashFn, hashes)
    }

    /** Two runs that agree on the first `n` frames. */
    ghost predicate AgreesBefore(other: Run<S>, n: nat) {
      && step == other.step && first == other.first
      && n <= |locals| && n <= |other.locals| && locals[..n] == other.locals[..n]
      && (forall f: nat :: f < n ==> LastKnown(remotes, f) == LastKnown(other.remotes, f))
    }

    /** Stepping on from any point of the run, as an equation the session's loops use. */
    lemma AtNext(n: nat)
      requires n < |locals|
      ensures At(n + 1) == step(At(n), locals[n], LastKnown(remotes, n))
    {
    }

    lemma {:induction false} AgreementReaches(other: Run<S>, n: nat)
      requires AgreesBefore(other, n)
      ensures At(n) == other.At(n)
      decreases n
    {
      if n > 0 {
        assert locals[..n - 1] == locals[..n][..n - 1] && other.locals[..n - 1] == other.locals[..n][..n - 1];
        AgreementReaches(other, n - 1);
        assert locals[n - 1] == locals[..n][n - 1] && other.locals[n - 1] == other.locals[..n][n - 1];
        assert LastKnown(remotes, n - 1) == LastKnown(other.remotes, n - 1);
      }
    }

    lemma AgreementReachesAll(other: Run<S>, n: nat)
      requires AgreesBefore(other, n)
      ensures forall f: nat :: f <= n ==> At(f) == other.At(f)
    {
      forall f: nat | f <= n ensures At(f) == other.At(f) {
        assert locals[..f] == locals[..n][..f] && other.locals[..f] == other.locals[..n][..f];
        AgreementReaches(other, f);
      }
    }
  }

  /** Stepping one frame with the last known input extends the records and hashes by that frame. */
  lemma StepExtends<S>(run: Run<S>, local: Input, from: nat, frames: map<nat, FrameRecord<S>>,
                       hashFn: S -> string, hashes: map<nat, string>)
    requires run.Retains(from, frames) && run.Hashes(hashFn, hashes) && from <= |run.locals|
    ensures var n, next := |run.locals|, run.(locals := run.locals + [local]);
      var reached := run.step(run.At(n), local, LastKnown(run.remotes, n));
      && next.At(n + 1) == reached && next.At(n) == run.At(n)
      && next.Retains(from, frames[n := FrameRecord(run.At(n), local, LastKnown(run.remotes, n), n !in run.remotes)])
      && next.Hashes(hashFn, hashes[n := hashFn(reached)])
  {
    hide Replay, LastKnown;
    var n, next := |run.locals|, run.(locals := run.locals + [local]);
    next.AtNext(n);
    run.AgreementReachesAll(next, n);
  }

  /** A remote input that lies ahead, or repeats the prediction, leaves every retained fact true. */
  lemma DeliveryKeeps<S>(run: Run<S>, frame: nat, remote: Input, from: nat, frames: map<nat, FrameRecord<S>>,
                         hashFn: S -> string, hashes: map<nat, string>)
    requires run.Retains(from, frames) && run.Hashes(hashFn, hashes)
    requires frame >= |run.locals| || remote == LastKnown(run.remotes, frame)
    ensures var next := run.(remotes := run.remotes[frame := remote]);
      && next.At(|run.locals|) == run.At(|run.locals|)
      && next.Retains(from, if frame in frames then frames[frame := frames[frame].(predictedRemote := false)] else frames)
      && next.Hashes(hashFn, hashes)
  {
    hide Replay, LastKnown;
    var next := run.(remotes := run.remotes[frame := remote]);
    assert run.AgreesBefore(next, |run.locals|) by {
      forall f: nat | f < |run.locals| ensures LastKnown(next.remotes, f) == LastKnown(run.remotes, f) {
        LastKnownAfterUpdate(run.remotes, frame, remote, f);
      }
    }
    run.AgreementReachesAll(next, |run.locals|);
    var frames' := if frame in frames then frames[frame := frames[frame].(predictedRemote := false)] else frames;
    forall f | f in frames' ensures frames'[f] == next.RecordAt(f) {
      assert f in frames && frames[f] == run.RecordAt(f);
      assert LastKnown(next.remotes, f) == LastKnown(run.remotes, f);
      assert next.At(f) == run.At(f);
    }
    forall f | f in hashes ensures hashes[f] == hashFn(next.At(f + 1)) {
      assert next.At(f + 1) == run.At(f + 1);
    }
  }

  /** Replaying one frame moves the agreement one frame further. */
  lemma ReplayExtends<S>(run: Run<S>, n: nat, from: nat, frames: map<nat, FrameRecord<S>>,
                         hashFn: S -> string, hashes: map<nat, string>)
    requires run.RetainsBefore(n, from, frames) && run.HashesBefore(n, hashFn, hashes)
    requires from <= n < |run.locals|
    ensures n in frames && frames[n].local == run.locals[n]
    ensures var used := LastKnown(run.remotes, n);
      var reached := run.step(run.At(n), run.locals[n], used);
      && run.At(n + 1) == reached
      && run.RetainsBefore(n + 1, from, frames[n := FrameRecord(run.At(n), frames[n].local, used, n !in run.remotes)])
      && run.HashesBefore(n + 1, hashFn, hashes[n := hashFn(reached)])
  {
    hide Replay, LastKnown;
    run.AtNext(n);
  }

  /** Forgetting the frames before the window keeps the rest. */
  lemma PruneKeeps<S>(run: Run<S>, from: nat, frames: map<nat, FrameRecord<S>>, later: nat, kept: map<nat, FrameRecord<S>>)
    requires run.Retains(from, frames) && from <= later
    requires forall f :: f in kept <==> f in frames && later <= f
    requires forall f :: f in kept ==> kept[f] == frames[f]
    ensures run.Retains(later, kept)
  {
    hide Replay, LastKnown;
  }

  /** A remote input for a frame of the past leaves the run up to that frame, and nothing more, in place. */
  lemma DeliveryRewinds<S>(run: Run<S>, frame: nat, remote: Input, from: nat, frames: map<nat, FrameRecord<S>>,
                           hashFn: S -> string, hashes: map<nat, string>)
    requires run.Retains(from, frames) && run.Hashes(hashFn, hashes)
    requires from <= frame < |run.locals|
    ensures var next := run.(remotes := run.remotes[frame := remote]);
      && frame in frames && frames[frame].snapshotBefore == next.At(frame)
      && next.RetainsBefore(frame, from, frames) && next.HashesBefore(frame, hashFn, hashes)
  {
    hide Replay, LastKnown;
    var next := run.(remotes := run.remotes[frame := remote]);
    assert run.AgreesBefore(next, frame) by {
      forall f: nat | f < frame ensures LastKnown(next.remotes, f) == LastKnown(run.remotes, f) {
        LastKnownAfterUpdate(run.remotes, frame, remote, f);
      }
    }
    run.AgreementReachesAll(next, frame);
    forall f | f in frames && f < frame ensures frames[f] == next.RecordAt(f) {
      assert frames[f] == run.RecordAt(f) && LastKnown(next.remotes, f) == LastKnown(run.remotes, f);
      assert next.At(f) == run.At(f);
    }
    forall f | f in hashes && f < frame ensures hashes[f] == hashFn(next.At(f + 1)) {
      assert next.At(f + 1) == run.At(f + 1);
    }
  }

  class RollbackSession<S(0,!new)> {
    const simulation: Simulation<S>
    const hashFn: S -> string
    const maxRollbackFrames: nat
    var currentFrame: nat
    var frames: map<nat, FrameRecord<S>>
    var remoteInputs: map<nat, Input>
    var stateHashes: map<nat, string>
    var remoteHashes: map<nat, string>
    var desyncFrame: Option<nat>
    var telemetry: Telemetry

    ghost const first: S
    ghost var history: seq<Event>

    /** The plain in-order run on everything accepted so far. */
    ghost function InOrder(): Run<S>
      reads `history
    {
      Run(simulation.stepFn, first, Locals(history), Remotes(history))
    }

    ghost function FirstRetained(): nat
      reads `currentFrame
    {
      WindowStart(currentFrame, maxRollbackFrames)
    }

    /** The refinement: the simulation is where the in-order run is, every frame has emitted its side
        effects exactly once and in frame order, and the bookkeeping tells the truth about that run. */
    ghost predicate Valid()
      reads this, simulation
    {
      && currentFrame == |Locals(history)|
      && remoteInputs == Remotes(history)
      && InOrder().Retains(FirstRetained(), frames)
      && InOrder().Hashes(hashFn, stateHashes)
      && IsLeastMismatch(stateHashes, remoteHashes, desyncFrame)
      && !simulation.damaged
      && simulation.state == InOrder().At(currentFrame)
      && simulation.emitted == Locals(history)
    }

    constructor (simulation: Simulation<S>, hashFn: S -> string, maxRollbackFrames: nat)
      requires !simulation.damaged && simulation.emitted == []
      ensures Valid() && history == []
      ensures this.simulation == simulation && first == simulation.state
      ensures this.maxRollbackFrames == maxRollbackFrames && this.hashFn == hashFn
    {
      this.simulation := simulation;
      this.hashFn := hashFn;
      this.maxRollbackFrames := maxRollbackFrames;
      currentFrame := 0;
      frames, remoteInputs, stateHashes, remoteHashes := map[], map[], map[], map[];
      desyncFrame := None;
      telemetry := Telemetry(0, 0, 0);
      first := simulation.state;
      history := [];
    }

    method RemoteForFrame(frame: nat) returns (remote: Input)
      ensures remote == LastKnown(remoteInputs, frame)
    {
      var known := set k | k in remoteInputs && k <= frame;
      if known == {} {
        forall k | k in remoteInputs ensures frame < k { assert k !in known; }
        LastKnownDefault(remoteInputs, frame);
        return NEUTRAL;
      }
      ghost var _ := GreatestExists(known);
      var key :| key in known && forall k :: k in known ==> k <= key;
      forall k | key < k <= frame ensures k !in remoteInputs { assert k !in known; }
      LastKnownIsFloor(remoteInputs, frame, key);
      return remoteInputs[key];
    }

    method Advance(local: Input) returns (r: Result<()>)
      requires Valid()
      modifies this, simulation
      ensures !simulation.damaged ==> Valid()
      ensures r.Success? ==> Valid() && history == old(history) + [Advanced(local)]
      ensures r.Success? ==> remoteHashes == old(remoteHashes)
      ensures r.Success? ==> telemetry == old(telemetry).(predictedFrames :=
        old(telemetry.predictedFrames) + if old(currentFrame in remoteInputs) then 0 else 1)
      ensures r.Failure? ==> Unchanged() && simulation.emitted == old(simulation.emitted)
      ensures r.Failure? && !simulation.damaged ==> simulation.state == old(simulation.state)
    {
      hide Locals, Remotes, Replay, LastKnown, Run.HashesBefore, Run.RetainsBefore, Run.Hashes, Run.Retains, Run.At, IsLeastMismatch;
      var frame := currentFrame;
      var snapshot := simulation.state;
      var remote := RemoteForFrame(frame);
      var predicted := frame !in remoteInputs;

      var stepped := simulation.StepFrame(local, remote, true);
      if stepped.Failure? {
        var restored := simulation.LoadState(snapshot);
        if restored.Failure? {
          return Failure(restored.error);
        }
        return Failure(stepped.error);
      }

      StepExtends(InOrder(), local, FirstRetained(), frames, hashFn, stateHashes);
      RecordAdvance(local);
      frames := frames[frame := FrameRecord(snapshot, local, remote, predicted)];
      stateHashes := stateHashes[frame := hashFn(simulation.state)];
      if predicted {
        telemetry := telemetry.(predictedFrames := telemetry.predictedFrames + 1);
      }
      currentFrame := currentFrame + 1;
      RecomputeDesync();
      ghost var unpruned := frames;
      PruneRollbackHistory();
      PruneKeeps(InOrder(), WindowStart(frame, maxRollbackFrames), unpruned, FirstRetained(), frames);
      return Success(());
    }

    /** A remote input is rejected exactly when it lies further back than the window; otherwise only a
        failing simulation can make the call fail, and only when the input contradicts what was used. */
    method SubmitRemoteInput(frame: nat, remote: Input) returns (r: Result<()>)
      requires Valid()
      modifies this, simulation
      ensures !simulation.damaged ==> Valid()
      ensures r.Success? ==> Valid() && history == old(history) + [Delivered(frame, remote)]
      ensures r.Success? ==> remoteHashes == old(remoteHashes)
      ensures r.Success? ==> telemetry == if old(Contradicts(frame, remote)) then old(RolledBack(frame)) else old(telemetry)
      ensures old(!Contradicts(frame, remote)) ==> unchanged(simulation)
      ensures r.Failure? <== old(frame < FirstRetained())
      ensures r.Failure? ==> old(frame < FirstRetained() || Contradicts(frame, remote))
      ensures r.Failure? ==> Unchanged() && simulation.emitted == old(simulation.emitted)
      ensures r.Failure? && !simulation.damaged ==> simulation.state == old(simulation.state)
    {
      ghost var from := FirstRetained();
      if frame >= currentFrame {
        DeliveryKeeps(InOrder(), frame, remote, from, frames, hashFn, stateHashes);
        RecordDelivery(frame, remote);
        remoteInputs := remoteInputs[frame := remote];
        return Success(());
      }

      var depth := currentFrame - frame;
      if depth > maxRollbackFrames {
        return Failure(InvalidArgument);
      }
      if frame !in frames {
        assert false; // the snapshot of a frame inside the window is always retained
      }

      if frames[frame].remoteUsed == remote {
        DeliveryKeeps(InOrder(), frame, remote, from, frames, hashFn, stateHashes);
        RecordDelivery(frame, remote);
        remoteInputs := remoteInputs[frame := remote];
        frames := frames[frame := frames[frame].(predictedRemote := false)];
        return Success(());
      }
      r := RewindAndReplay(frame, remote, depth);
    }

    /** The last known input used for an already simulated frame inside the window was another one. */
    ghost predicate Contradicts(frame: nat, remote: Input)
      reads this
    {
      FirstRetained() <= frame < currentFrame && LastKnown(remoteInputs, frame) != remote
    }

    ghost function RolledBack(frame: nat): Telemetry
      reads this
      requires frame <= currentFrame
    {
      var depth := currentFrame - frame;
      Telemetry(telemetry.predictedFrames, depth, if telemetry.maxRollbackDepth < depth then depth else telemetry.maxRollbackDepth)
    }

    /** The second half of SubmitRemoteInput: restore the snapshot of `frame`, replay to the present, and
        put everything back if that fails. */
    method RewindAndReplay(frame: nat, remote: Input, depth: nat) returns (r: Result<()>)
      requires Valid() && Contradicts(frame, remote) && depth == currentFrame - frame
      modifies this, simulation
      ensures !simulation.damaged ==> Valid()
      ensures r.Success? ==> Valid() && history == old(history) + [Delivered(frame, remote)]
      ensures r.Success? ==> remoteHashes == old(remoteHashes) && telemetry == old(RolledBack(frame))
      ensures r.Failure? ==> Unchanged()
      ensures simulation.emitted == old(simulation.emitted)
      ensures r.Failure? && !simulation.damaged ==> simulation.state == old(simulation.state)
    {
      hide Locals, Remotes, Replay, LastKnown, Run.HashesBefore, Run.RetainsBefore, Run.At, IsLeastMismatch;
      var originalState := simulation.state;
      var originalFrames := frames;
      var originalRemoteInputs := remoteInputs;
      var originalHashes := stateHashes;

      ghost var run := InOrder().(remotes := remoteInputs[frame := remote]);
      DeliveryRewinds(InOrder(), frame, remote, FirstRetained(), frames, hashFn, stateHashes);
      remoteInputs := remoteInputs[frame := remote];
      var restored := simulation.LoadState(frames[frame].snapshotBefore);
      if restored.Failure? {
        var _ := simulation.LoadState(originalState);
        remoteInputs := originalRemoteInputs;
        return Failure(restored.error);
      }

      r := ReplayFrom(frame, run, FirstRetained());
      if r.Failure? {
        var _ := simulation.LoadState(originalState);
        frames := originalFrames;
        remoteInputs := originalRemoteInputs;
        stateHashes := originalHashes;
        return r;
      }

      telemetry := telemetry.(lastRollbackDepth := depth,
                              maxRollbackDepth := if telemetry.maxRollbackDepth < depth then depth else telemetry.maxRollbackDepth);
      RecordDelivery(frame, remote);
      RecomputeDesync();
      return Success(());
    }

    /** The replay loop: every frame from `frame` on is stepped again, without side effects. */
    method ReplayFrom(frame: nat, ghost run: Run<S>, ghost from: nat) returns (r: Result<()>)
      requires run.step == simulation.stepFn && run.remotes == remoteInputs
      requires from <= frame <= currentFrame == |run.locals|
      requires run.RetainsBefore(frame, from, frames) && run.HashesBefore(frame, hashFn, stateHashes)
      requires !simulation.damaged && simulation.state == run.At(frame)
      modifies `frames, `stateHashes, simulation
      ensures simulation.emitted == old(simulation.emitted)
      ensures r.Success? ==> !simulation.damaged && simulation.state == run.At(currentFrame)
      ensures r.Success? ==> run.Retains(from, frames) && run.Hashes(hashFn, stateHashes)
    {
      hide Replay, LastKnown, Run.HashesBefore, Run.At;
      var replayFrame := frame;
      while replayFrame < currentFrame
        invariant frame <= replayFrame <= currentFrame
        invariant run.RetainsBefore(replayFrame, from, frames) && run.HashesBefore(replayFrame, hashFn, stateHashes)
        invariant !simulation.damaged && simulation.state == run.At(replayFrame)
        invariant simulation.emitted == old(simulation.emitted)
      {
        if replayFrame !in frames {
          assert false; // the history between the corrected frame and the present has no gap
        }
        ReplayExtends(run, replayFrame, from, frames, hashFn, stateHashes);
        var used := RemoteForFrame(replayFrame);
        frames := frames[replayFrame := FrameRecord(simulation.state, frames[replayFrame].local, used, replayFrame !in remoteInputs)];
        var stepped := simulation.StepFrame(frames[replayFrame].local, used, false);
        if stepped.Failure? {
          return Failure(stepped.error);
        }
        stateHashes := stateHashes[replayFrame := hashFn(simulation.state)];
        replayFrame := replayFrame + 1;
      }
      return Success(());
    }

    twostate predicate Unchanged()
      reads this
    {
      unchanged(`currentFrame, `frames, `remoteInputs, `stateHashes, `remoteHashes, `desyncFrame, `telemetry, `history)
    }

    ghost method RecordAdvance(local: Input)
      modifies `history
      ensures history == old(history) + [Advanced(local)]
      ensures Locals(history) == old(Locals(history)) + [local] && Remotes(history) == old(Remotes(history))
    {
      history := history + [Advanced(local)];
      assert history[..|history| - 1] == old(history);
    }

    ghost method RecordDelivery(frame: nat, remote: Input)
      modifies `history
      ensures history == old(history) + [Delivered(frame, remote)]
      ensures Locals(history) == old(Locals(history)) && Remotes(history) == old(Remotes(history))[frame := remote]
    {
      history := history + [Delivered(frame, remote)];
      assert history[..|history| - 1] == old(history);
    }

    method SubmitRemoteHash(frame: nat, hashHex: string) returns (r: Result<()>)
      requires Valid()
      modifies this
      ensures Valid() && history == old(history)
      ensures unchanged(`currentFrame, `frames, `remoteInputs, `stateHashes, `telemetry)
      ensures r.Success? <==> |hashHex| == 64 && forall c :: c in hashHex ==> IsHexDigit(c)
      ensures r.Success? ==> remoteHashes == old(remoteHashes)[frame := hashHex]
      ensures r.Failure? ==> r == Failure(InvalidArgument) && unchanged(this)
    {
      if |hashHex| != 64 || exists c :: c in hashHex && !IsHexDigit(c) {
        return Failure(InvalidArgument);
      }
      remoteHashes := remoteHashes[frame := hashHex];
      RecomputeDesync();
      return Success(());
    }

    method StateHash(frame: nat) returns (r: Result<string>)
      requires Valid()
      ensures frame < currentFrame ==> r == Success(hashFn(InOrder().At(frame + 1)))
      ensures frame >= currentFrame ==> r == Failure(FileNotFound)
    {
      if frame !in stateHashes {
        return Failure(FileNotFound);
      }
      return Success(stateHashes[frame]);
    }

    /** Erases retained frames from the oldest on, up to the start of the window. */
    method PruneRollbackHistory()
      modifies `frames
      ensures forall f :: f in frames <==> f in old(frames) && FirstRetained() <= f
      ensures forall f :: f in frames ==> frames[f] == old(frames)[f]
    {
      var firstRetained := WindowStart(currentFrame, maxRollbackFrames);
      while frames.Keys != {}
        invariant frames.Keys <= old(frames.Keys)
        invariant forall f :: f in frames ==> frames[f] == old(frames)[f]
        invariant forall f :: f in old(frames) && firstRetained <= f ==> f in frames
        decreases |frames.Keys|
      {
        ghost var _ := LeastExists(frames.Keys);
        var oldest :| oldest in frames.Keys && forall f :: f in frames.Keys ==> oldest <= f;
        if oldest >= firstRetained {
          break;
        }
        assert |frames.Keys - {oldest}| < |frames.Keys|;
        frames := frames - {oldest};
      }
    }

    /** Scans the submitted hashes in frame order and stops at the first one that differs. */
    method RecomputeDesync()
      modifies `desyncFrame
      ensures IsLeastMismatch(stateHashes, remoteHashes, desyncFrame)
    {
      desyncFrame := None;
      var rest := remoteHashes.Keys;
      while rest != {}
        invariant rest <= remoteHashes.Keys
        invariant desyncFrame == None
        invariant forall f :: f in remoteHashes && f !in rest ==> !Mismatch(stateHashes, remoteHashes, f)
        decreases |rest|
      {
        ghost var _ := LeastExists(rest);
        var frame :| frame in rest && forall f :: f in rest ==> frame <= f;
        if frame in stateHashes && stateHashes[frame] != remoteHashes[frame] {
          desyncFrame := Some(frame);
          return;
        }
        assert |rest - {frame}| < |rest|;
        rest := rest - {frame};
      }
    }
  }
}
