/** What an exploration has recorded (core/ps1_max3_explorer.cpp), independently of how it got there.

    A machine is run until it stops. Where it stopped at an unimplemented BIOS call, four answers are tried,
    each on a copy. `Entry` is everything known of one run, `EntryOk` how it follows from the runs before it.
    `ExplorerSearch` holds the depth-first search and proves that it records such entries. */
module Exploration {
  import opened Outcomes
  import opened Words
  import opened MemoryBus
  import opened BootRuntime
  import opened BootRuntimeDevice

  datatype Metrics = Metrics(presentedFrames: nat, vramWrites: nat, gp0Commands: nat, gp1Commands: nat, cdromCommands: nat, dmaTransfers: nat)

  const NO_METRICS := Metrics(0, 0, 0, 0, 0, 0)

  /** The part of a boot report that the exploration looks at. */
  datatype Segment = Segment(retired: nat, stop: StopReason, mmio: seq<Mmio>, metrics: Metrics)

  datatype FrontierAt = FrontierAt(table: u32, selector: u32)

  /** The boot runtime, as far as the exploration uses it. The state hash is any function of the state. */
  datatype Machine<!R> = Machine(run: (R, nat) -> (R, Segment), fallback: (R, Fallback) -> Option<R>, hash: R -> nat, table: R -> Option<FrontierAt>)

  datatype Limits = Limits(maxNodes: nat, maxBranchDepth: nat, maxTotalRetired: nat, segmentBudget: nat)

  datatype Termination = Completed | NodeLimit | TotalRetiredLimit

  datatype Decision = Decision(at: FrontierAt, fallback: Fallback)

  datatype Node = Node(index: nat, parent: Option<nat>, depth: nat, fallback: Option<Fallback>, stop: StopReason,
                       segmentRetired: nat, cumulativeRetired: nat, stateHash: nat, deduplicated: bool,
                       frontier: Option<FrontierAt>, metrics: Metrics, dependencyCount: nat)

  /** A dependency is its own key: fields that do not apply are left out. */
  datatype Dependency =
    | BiosFrontier(at: FrontierAt)
    | SpeculativeMmio(address: u32, width: Width, write: bool)

  datatype FrontierKey = FrontierKey(at: FrontierAt, stateHash: nat)

  const FALLBACK_ORDER := [ReturnZero, ReturnOne, ReturnMinusOne, PreserveV0]

  function Min(a: nat, b: nat): nat {
    if a <= b then a else b
  }

  function Accumulate(prior: Metrics, segment: Segment): Metrics {
    var s := segment.metrics;
    Metrics(prior.presentedFrames + s.presentedFrames, prior.vramWrites + s.vramWrites, prior.gp0Commands + s.gp0Commands,
            prior.gp1Commands + s.gp1Commands, prior.cdromCommands + s.cdromCommands, prior.dmaTransfers + s.dmaTransfers)
  }

  // ----- Ranking -----

  predicate Outranks(candidate: Node, current: Node) {
    var a, b := candidate.metrics, current.metrics;
    if a.presentedFrames != b.presentedFrames then a.presentedFrames > b.presentedFrames
    else if a.vramWrites != b.vramWrites then a.vramWrites > b.vramWrites
    else if a.gp0Commands != b.gp0Commands then a.gp0Commands > b.gp0Commands
    else if a.gp1Commands != b.gp1Commands then a.gp1Commands > b.gp1Commands
    else if a.cdromCommands != b.cdromCommands then a.cdromCommands > b.cdromCommands
    else if a.dmaTransfers != b.dmaTransfers then a.dmaTransfers > b.dmaTransfers
    else if candidate.dependencyCount != current.dependencyCount then candidate.dependencyCount > current.dependencyCount
    else candidate.cumulativeRetired > current.cumulativeRetired
  }

  /** Equality of everything that is ranked. */
  predicate Ties(a: Node, b: Node) {
    a.metrics == b.metrics && a.dependencyCount == b.dependencyCount && a.cumulativeRetired == b.cumulativeRetired
  }

  /** A strict weak order, with ties exactly between equal ranks. */
  lemma OutranksIsStrictWeakOrder(a: Node, b: Node, c: Node)
    ensures !Outranks(a, a)
    ensures Outranks(a, b) && Outranks(b, c) ==> Outranks(a, c)
    ensures !Outranks(a, b) && !Outranks(b, a) <==> Ties(a, b)
    ensures !Outranks(a, b) && !Outranks(b, c) ==> !Outranks(a, c)
  {
  }

  // ----- What one run found -----

  function FrontierOf<R>(m: Machine<R>, end: R, segment: Segment): Option<FrontierAt> {
    if segment.stop == BiosCallUnimplemented then m.table(end) else None
  }

  function ProbesOf(mmio: seq<Mmio>): seq<Dependency> {
    if mmio == [] then []
    else
      var last := mmio[|mmio| - 1];
      ProbesOf(mmio[..|mmio| - 1]) + if last.speculative then [SpeculativeMmio(last.address, last.width, last.write)] else []
  }

  /** The dependencies of one run, in the order they are noted. */
  function FoundBy(segment: Segment, frontier: Option<FrontierAt>): seq<Dependency> {
    ProbesOf(segment.mmio) + if frontier.Some? then [BiosFrontier(frontier.value)] else []
  }

  function SetOf<T>(s: seq<T>): set<T> {
    set x | x in s
  }

  // ----- The record of an exploration -----

  datatype Entry<R> = Entry(node: Node, start: R, end: R, segment: Segment, path: seq<Decision>, known: set<Dependency>)

  function KeyOf(n: Node): FrontierKey
    requires n.frontier.Some?
  {
    FrontierKey(n.frontier.value, n.stateHash)
  }

  /** A frontier above the depth limit. */
  predicate CanBranch(o: Limits, n: Node) {
    n.frontier.Some? && n.depth < o.maxBranchDepth
  }

  predicate Expands(o: Limits, n: Node) {
    CanBranch(o, n) && !n.deduplicated
  }

  predicate ExpandsKey(o: Limits, n: Node, key: FrontierKey) {
    Expands(o, n) && KeyOf(n) == key
  }

  function TotalRetired<R>(log: seq<Entry<R>>): nat {
    if log == [] then 0 else TotalRetired(log[..|log| - 1]) + log[|log| - 1].node.segmentRetired
  }

  function ExpandedKeys<R>(o: Limits, log: seq<Entry<R>>): set<FrontierKey> {
    set i | 0 <= i < |log| && Expands(o, log[i].node) :: KeyOf(log[i].node)
  }

  /** The budget of the next run. */
  function NextBudget<R>(o: Limits, log: seq<Entry<R>>): nat {
    Min(o.segmentBudget, Remaining(o.maxTotalRetired, TotalRetired(log)))
  }

  function Remaining(limit: nat, used: nat): nat {
    if limit >= used then limit - used else 0
  }

  /** What the entry says of its own run. */
  ghost predicate RunOk<R(!new)>(m: Machine<R>, o: Limits, before: seq<Entry<R>>, e: Entry<R>) {
    && (e.end, e.segment) == m.run(e.start, NextBudget(o, before))
    && e.node.index == |before|
    && e.node.depth <= o.maxBranchDepth
    && e.node.stop == e.segment.stop
    && e.node.segmentRetired == e.segment.retired
    && e.node.stateHash == m.hash(e.end)
    && e.node.frontier == FrontierOf(m, e.end, e.segment)
    && e.node.dependencyCount == |e.known|
    && e.node.deduplicated == (CanBranch(o, e.node) && KeyOf(e.node) in ExpandedKeys(o, before))
  }

  ghost predicate RootOk<R(!new)>(root: R, e: Entry<R>) {
    && e.start == root
    && e.node.parent == None && e.node.fallback == None
    && e.node.depth == 0
    && e.node.cumulativeRetired == e.segment.retired
    && e.node.metrics == Accumulate(NO_METRICS, e.segment)
    && e.path == []
    && e.known == SetOf(FoundBy(e.segment, e.node.frontier))
  }

  ghost predicate ChildOk<R(!new)>(m: Machine<R>, o: Limits, before: seq<Entry<R>>, e: Entry<R>) {
    && e.node.parent.Some? && e.node.parent.value < |before| && e.node.fallback.Some?
    && var p := before[e.node.parent.value];
    && Expands(o, p.node)
    && m.fallback(p.end, e.node.fallback.value) == Some(e.start)
    && e.node.depth == p.node.depth + 1
    && e.node.cumulativeRetired == p.node.cumulativeRetired + e.segment.retired
    && e.node.metrics == Accumulate(p.node.metrics, e.segment)
    && e.path == p.path + [Decision(p.node.frontier.value, e.node.fallback.value)]
    && e.known == p.known + SetOf(FoundBy(e.segment, e.node.frontier))
    && WithinSubtree(before, e.node.parent.value, e.node.depth)
  }

  /** Every entry after `p` lies at least `depth` deep. */
  ghost predicate WithinSubtree<R(!new)>(log: seq<Entry<R>>, p: nat, depth: nat) {
    forall k :: p < k < |log| ==> log[k].node.depth >= depth
  }

  ghost predicate EntryOk<R(!new)>(m: Machine<R>, o: Limits, root: R, before: seq<Entry<R>>, e: Entry<R>) {
    RunOk(m, o, before, e) && if before == [] then RootOk(root, e) else ChildOk(m, o, before, e)
  }

  ghost predicate LogOk<R(!new)>(m: Machine<R>, o: Limits, root: R, log: seq<Entry<R>>) {
    forall i {:trigger log[i]} :: 0 <= i < |log| ==> EntryOk(m, o, root, log[..i], log[i])
  }

  /** What the exploration needs of the machine: it keeps to its budget, and where it stopped at an unimplemented
      call all four answers are accepted. `keeps` is what the machine itself maintains. */
  ghost predicate MachineOk<R(!new)>(m: Machine<R>, keeps: R -> bool) {
    && (forall r, budget: nat {:trigger m.run(r, budget)} :: keeps(r) ==>
          && keeps(m.run(r, budget).0) && m.run(r, budget).1.retired <= budget
          && (FrontierOf(m, m.run(r, budget).0, m.run(r, budget).1).Some? ==>
                forall f {:trigger m.fallback(m.run(r, budget).0, f)} :: m.fallback(m.run(r, budget).0, f).Some?))
    && (forall r, f {:trigger m.fallback(r, f)} :: keeps(r) && m.fallback(r, f).Some? ==> keeps(m.fallback(r, f).value))
  }

  // ----- The tree -----

  lemma LogGrows<R(!new)>(m: Machine<R>, o: Limits, root: R, log: seq<Entry<R>>, e: Entry<R>)
    requires LogOk(m, o, root, log) && EntryOk(m, o, root, log, e)
    ensures LogOk(m, o, root, log + [e])
  {
    hide EntryOk;
    var next := log + [e];
    forall i | 0 <= i < |next| ensures EntryOk(m, o, root, next[..i], next[i]) {
      if i < |log| {
        assert next[..i] == log[..i] && next[i] == log[i];
      } else {
        assert next[..i] == log;
      }
    }
  }

  lemma EntryAt<R(!new)>(m: Machine<R>, o: Limits, root: R, log: seq<Entry<R>>, i: nat)
    requires LogOk(m, o, root, log) && i < |log|
    ensures var n := log[i].node;
      && n.index == i && n.depth <= o.maxBranchDepth
      && (i == 0 ==> RootOk(root, log[0]))
      && (i > 0 ==>
            && n.parent.Some? && n.parent.value < i && n.fallback.Some?
            && var p := log[n.parent.value];
            && Expands(o, p.node) && n.depth == p.node.depth + 1
            && n.cumulativeRetired == p.node.cumulativeRetired + n.segmentRetired
            && log[i].path == p.path + [Decision(p.node.frontier.value, n.fallback.value)]
            && log[i].known == p.known + SetOf(FoundBy(log[i].segment, n.frontier))
            && forall k :: n.parent.value < k < i ==> log[k].node.depth >= n.depth)
      && n.segmentRetired == log[i].segment.retired && n.dependencyCount == |log[i].known|
  {
    hide ExpandedKeys, NextBudget, FoundBy, SetOf, Expands, Accumulate, CanBranch, FrontierOf;
    assert EntryOk(m, o, root, log[..i], log[i]);
    hide LogOk;
    if i > 0 {
      var p, d := log[i].node.parent.value, log[i].node.depth;
      assert WithinSubtree(log[..i], p, d);
      assert log[..i][p] == log[p];
      forall k | p < k < i ensures log[k].node.depth >= d {
        assert log[..i][k] == log[k];
      }
    }
  }

  /** The answers given on the way from the root to entry `i`. */
  ghost function PathOf<R(!new)>(m: Machine<R>, o: Limits, root: R, log: seq<Entry<R>>, i: nat): seq<Decision>
    requires LogOk(m, o, root, log) && i < |log|
  {
    if i == 0 then []
    else
      EntryAt(m, o, root, log, i);
      var p := log[i].node.parent.value;
      PathOf(m, o, root, log, p) + [Decision(log[p].node.frontier.value, log[i].node.fallback.value)]
  }

  /** What the runs on the way from the root to entry `i` retired, together. */
  ghost function RetiredAlong<R(!new)>(m: Machine<R>, o: Limits, root: R, log: seq<Entry<R>>, i: nat): nat
    requires LogOk(m, o, root, log) && i < |log|
  {
    EntryAt(m, o, root, log, i);
    log[i].node.segmentRetired + if i == 0 then 0 else RetiredAlong(m, o, root, log, log[i].node.parent.value)
  }

  /** What the runs on the way from the root to entry `i` found, together. */
  ghost function KnownAlong<R(!new)>(m: Machine<R>, o: Limits, root: R, log: seq<Entry<R>>, i: nat): set<Dependency>
    requires LogOk(m, o, root, log) && i < |log|
  {
    EntryAt(m, o, root, log, i);
    var own := SetOf(FoundBy(log[i].segment, log[i].node.frontier));
    if i == 0 then own else KnownAlong(m, o, root, log, log[i].node.parent.value) + own
  }

  /** Path, cumulative count and dependency count of a node are those of its chain of parents. */
  lemma {:induction false} NodeSumsItsChain<R(!new)>(m: Machine<R>, o: Limits, root: R, log: seq<Entry<R>>, i: nat)
    requires LogOk(m, o, root, log) && i < |log|
    ensures log[i].path == PathOf(m, o, root, log, i) && |log[i].path| == log[i].node.depth
    ensures log[i].node.cumulativeRetired == RetiredAlong(m, o, root, log, i)
    ensures log[i].node.dependencyCount == |KnownAlong(m, o, root, log, i)| && log[i].known == KnownAlong(m, o, root, log, i)
    decreases i
  {
    hide LogOk, Expands, FoundBy, SetOf;
    EntryAt(m, o, root, log, i);
    if i > 0 {
      NodeSumsItsChain(m, o, root, log, log[i].node.parent.value);
    }
  }

  ghost predicate Descends<R(!new)>(m: Machine<R>, o: Limits, root: R, log: seq<Entry<R>>, a: nat, i: nat)
    requires LogOk(m, o, root, log) && i < |log|
  {
    EntryAt(m, o, root, log, i);
    a == i || (i > 0 && Descends(m, o, root, log, a, log[i].node.parent.value))
  }

  /** Preorder: the descendants of a node are exactly the entries that follow it until one is no deeper. */
  lemma {:induction false} SubtreesAreRuns<R(!new)>(m: Machine<R>, o: Limits, root: R, log: seq<Entry<R>>, a: nat, i: nat)
    requires LogOk(m, o, root, log) && a < |log| && i < |log|
    ensures Descends(m, o, root, log, a, i) <==> a <= i && forall k :: a < k <= i ==> log[k].node.depth > log[a].node.depth
    decreases i
  {
    hide LogOk;
    EntryAt(m, o, root, log, i);
    if i != a && i > 0 {
      SubtreesAreRuns(m, o, root, log, a, log[i].node.parent.value);
    }
  }

  // ----- Deduplication -----

  lemma ExpandedKeysAre<R(!new)>(o: Limits, log: seq<Entry<R>>, j: nat, key: FrontierKey)
    requires j <= |log|
    ensures key in ExpandedKeys(o, log[..j]) <==> exists k :: 0 <= k < j && ExpandsKey(o, log[k].node, key)
  {
    var before := log[..j];
    if key in ExpandedKeys(o, before) {
      var k :| 0 <= k < j && Expands(o, before[k].node) && KeyOf(before[k].node) == key;
      assert ExpandsKey(o, log[k].node, key);
    }
    if k :| 0 <= k < j && ExpandsKey(o, log[k].node, key) {
      assert before[k] == log[k] && KeyOf(before[k].node) in ExpandedKeys(o, before);
    }
  }

  /** A frontier above the depth limit is expanded exactly when none before it with its key was. */
  lemma ExpandedOnce<R(!new)>(m: Machine<R>, o: Limits, root: R, log: seq<Entry<R>>, j: nat)
    requires LogOk(m, o, root, log) && j < |log| && CanBranch(o, log[j].node)
    ensures Expands(o, log[j].node) <==> forall k :: 0 <= k < j ==> !ExpandsKey(o, log[k].node, KeyOf(log[j].node))
  {
    hide NextBudget, FoundBy, SetOf, Accumulate, FrontierOf, ExpandsKey, ExpandedKeys;
    var before, e := log[..j], log[j].node;
    assert EntryOk(m, o, root, before, log[j]);
    hide LogOk;
    assert e.deduplicated == (KeyOf(e) in ExpandedKeys(o, before));
    hide EntryOk, RunOk;
    ExpandedKeysAre(o, log, j, KeyOf(e));
  }

  // ----- Children -----

  /** The answers tried at entry `i`, in the order they were tried. */
  function AnswersTried<R>(log: seq<Entry<R>>, i: nat): seq<Fallback> {
    if log == [] then []
    else
      var last := log[|log| - 1].node;
      AnswersTried(log[..|log| - 1], i)
      + if last.parent == Some(i) && last.fallback.Some? then [last.fallback.value] else []
  }

  /** All four answers were tried at every frontier that was to be expanded, and none elsewhere. */
  ghost predicate SettledFrom<R(!new)>(o: Limits, log: seq<Entry<R>>, from: nat) {
    forall i {:trigger log[i]} :: from <= i < |log| ==> AnswersTried(log, i) == if Expands(o, log[i].node) then FALLBACK_ORDER else []
  }

  lemma {:induction false} ChildrenOnlyFrom<R(!new)>(log: seq<Entry<R>>, more: seq<Entry<R>>, i: nat)
    requires forall k :: 0 <= k < |more| ==> more[k].node.parent != Some(i)
    ensures AnswersTried(log + more, i) == AnswersTried(log, i)
    decreases |more|
  {
    if more == [] {
      assert log + more == log;
    } else {
      var n := |more| - 1;
      assert (log + more)[..|log + more| - 1] == log + more[..n];
      ChildrenOnlyFrom(log, more[..n], i);
    }
  }

  // ----- Counting -----

  /** Nodes of the complete four-way tree of that height. */
  function CompleteTree(height: nat): nat {
    if height == 0 then 1 else 1 + 4 * CompleteTree(height - 1)
  }

  function Pow4(n: nat): nat {
    if n == 0 then 1 else 4 * Pow4(n - 1)
  }

  lemma {:induction false} CompleteTreeCounts(height: nat)
    ensures 3 * CompleteTree(height) + 1 == Pow4(height + 1)
  {
    if height > 0 {
      CompleteTreeCounts(height - 1);
    }
  }

  // ----- Dependencies -----

  function Noted(known: seq<Dependency>, found: seq<Dependency>): seq<Dependency> {
    if found == [] then known
    else
      var sofar := Noted(known, found[..|found| - 1]);
      if found[|found| - 1] in sofar then sofar else sofar + [found[|found| - 1]]
  }

  /** Every dependency any run found, once, in the order of discovery. */
  function Discovered<R>(log: seq<Entry<R>>): seq<Dependency> {
    if log == [] then []
    else
      var last := log[|log| - 1];
      Noted(Discovered(log[..|log| - 1]), FoundBy(last.segment, last.node.frontier))
  }

  ghost predicate NoRepeats<T(!new)>(s: seq<T>) {
    forall i, j :: 0 <= i < j < |s| ==> s[i] != s[j]
  }

  lemma {:induction false} NotedAddsOnce(known: seq<Dependency>, found: seq<Dependency>)
    requires NoRepeats(known)
    ensures NoRepeats(Noted(known, found))
    ensures forall d :: d in Noted(known, found) <==> d in known || d in found
    decreases |found|
  {
    if found != [] {
      NotedAddsOnce(known, found[..|found| - 1]);
      assert found == found[..|found| - 1] + [found[|found| - 1]];
    }
  }

  lemma LogShrinks<R(!new)>(m: Machine<R>, o: Limits, root: R, log: seq<Entry<R>>, n: nat)
    requires LogOk(m, o, root, log) && n <= |log|
    ensures LogOk(m, o, root, log[..n])
  {
    hide EntryOk;
    var before := log[..n];
    forall i | 0 <= i < n ensures EntryOk(m, o, root, before[..i], before[i]) {
      assert EntryOk(m, o, root, log[..i], log[i]) && before[..i] == log[..i];
    }
  }

  /** The reported dependencies are the union of those of all paths, without repetition. */
  lemma {:induction false} DiscoveredIsUnion<R(!new)>(m: Machine<R>, o: Limits, root: R, log: seq<Entry<R>>)
    requires LogOk(m, o, root, log)
    ensures NoRepeats(Discovered(log))
    ensures forall d :: d in Discovered(log) <==> exists i :: 0 <= i < |log| && d in log[i].known
    decreases |log|
  {
    hide LogOk, FoundBy, Expands, Noted;
    if log != [] {
      var n := |log| - 1;
      var before, last := log[..n], log[n];
      LogShrinks(m, o, root, log, n);
      DiscoveredIsUnion(m, o, root, before);
      NotedAddsOnce(Discovered(before), FoundBy(last.segment, last.node.frontier));
      EntryAt(m, o, root, log, n);
      forall d ensures d in Discovered(log) <==> exists i :: 0 <= i < |log| && d in log[i].known {
        UnionGrows(before, last, d);
        assert log == before + [last];
      }
    }
  }

  lemma UnionGrows<R(!new)>(before: seq<Entry<R>>, last: Entry<R>, d: Dependency)
    ensures (exists i :: 0 <= i < |before + [last]| && d in (before + [last])[i].known)
        <==> d in last.known || exists i :: 0 <= i < |before| && d in before[i].known
  {
    var log := before + [last];
    if d in last.known {
      assert log[|before|] == last;
    } else if i :| 0 <= i < |before| && d in before[i].known {
      assert log[i] == before[i];
    }
  }

  // ----- The best node -----

  /** The node a report singles out: outranked by none, and itself above every earlier one. */
  ghost predicate BestOf<R(!new)>(log: seq<Entry<R>>, best: nat) {
    && best < |log|
    && (forall i {:trigger log[i]} :: 0 <= i < |log| ==> !Outranks(log[i].node, log[best].node))
    && (forall i {:trigger log[i]} :: 0 <= i < best ==> Outranks(log[best].node, log[i].node))
  }

  /** The kept best node is the first one that no other outranks. */
  lemma BestIsFirstUnoutranked<R(!new)>(log: seq<Entry<R>>, best: nat)
    requires best < |log|
    ensures BestOf(log, best) <==>
      && (forall i :: 0 <= i < |log| ==> !Outranks(log[i].node, log[best].node))
      && (forall j :: 0 <= j < best ==> exists i :: 0 <= i < |log| && Outranks(log[i].node, log[j].node))
  {
    if (forall i :: 0 <= i < |log| ==> !Outranks(log[i].node, log[best].node))
       && (forall j :: 0 <= j < best ==> exists i :: 0 <= i < |log| && Outranks(log[i].node, log[j].node)) {
      forall j | 0 <= j < best ensures Outranks(log[best].node, log[j].node) {
        var i :| 0 <= i < |log| && Outranks(log[i].node, log[j].node);
        OutranksIsStrictWeakOrder(log[j].node, log[best].node, log[i].node);
        OutranksIsStrictWeakOrder(log[i].node, log[best].node, log[j].node);
      }
    }
  }
}
