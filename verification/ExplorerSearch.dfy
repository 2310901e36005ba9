/** The depth-first search of core/ps1_max3_explorer.cpp: one object that collects the report while `Visit`
    calls itself for every answer to an unimplemented BIOS call. */
module ExplorerSearch {
  import opened Outcomes
  import opened Words
  import opened R3000a
  import opened R3000aPipeline
  import opened BootRuntime
  import opened BootRuntimeDevice
  import opened Exploration

  /** The arguments of one visit: the machine to run and what is known of the way to it. */
  datatype Arrival<R> = Arrival(start: R, depth: nat, parent: Option<nat>, fallback: Option<Fallback>, cumulative: nat,
                                metrics: Metrics, path: seq<Decision>, known: set<Dependency>)

  ghost predicate ArrivalOk<R(!new)>(m: Machine<R>, o: Limits, root: R, log: seq<Entry<R>>, a: Arrival<R>) {
    && a.depth <= o.maxBranchDepth
    && if log == [] then a == Arrival(root, 0, None, None, 0, NO_METRICS, [], {})
       else
         && a.parent.Some? && a.parent.value < |log| && a.fallback.Some?
         && var p := log[a.parent.value];
         && Expands(o, p.node)
         && m.fallback(p.end, a.fallback.value) == Some(a.start)
         && a.depth == p.node.depth + 1
         && a.cumulative == p.node.cumulativeRetired && a.metrics == p.node.metrics && a.known == p.known
         && a.path == p.path + [Decision(p.node.frontier.value, a.fallback.value)]
         && WithinSubtree(log, a.parent.value, a.depth)
  }

  lemma NewEntryOk<R(!new)>(m: Machine<R>, o: Limits, root: R, log: seq<Entry<R>>, a: Arrival<R>, e: Entry<R>)
    requires ArrivalOk(m, o, root, log, a) && RunOk(m, o, log, e)
    requires e.start == a.start && e.node.parent == a.parent && e.node.fallback == a.fallback && e.node.depth == a.depth
    requires e.node.cumulativeRetired == a.cumulative + e.segment.retired && e.node.metrics == Accumulate(a.metrics, e.segment)
    requires e.path == a.path && e.known == a.known + SetOf(FoundBy(e.segment, e.node.frontier))
    ensures EntryOk(m, o, root, log, e)
  {
    hide FoundBy, SetOf, RunOk, Expands, Accumulate;
  }

  lemma ExpandedKeysGrow<R(!new)>(o: Limits, log: seq<Entry<R>>, e: Entry<R>)
    ensures ExpandedKeys(o, log + [e]) == ExpandedKeys(o, log) + if Expands(o, e.node) then {KeyOf(e.node)} else {}
  {
    var next := log + [e];
    assert next[|log|] == e;
    forall key | key in ExpandedKeys(o, log) ensures key in ExpandedKeys(o, next) {
      var i :| 0 <= i < |log| && Expands(o, log[i].node) && KeyOf(log[i].node) == key;
      assert next[i] == log[i];
    }
  }

  lemma BestGrows<R(!new)>(log: seq<Entry<R>>, best: nat, e: Entry<R>)
    requires log == [] || BestOf(log, best)
    ensures BestOf(log + [e], if log == [] || Outranks(e.node, log[best].node) then |log| else best)
  {
    hide Outranks;
    var next := log + [e];
    OutranksIsStrictWeakOrder(e.node, e.node, e.node);
    forall i | 0 <= i < |log| ensures next[i] == log[i] && (BestOf(log, best) && Outranks(e.node, log[best].node) ==> Outranks(e.node, log[i].node) && !Outranks(log[i].node, e.node)) {
      if BestOf(log, best) {
        OutranksIsStrictWeakOrder(e.node, log[i].node, log[best].node);
        OutranksIsStrictWeakOrder(log[i].node, e.node, log[best].node);
        OutranksIsStrictWeakOrder(log[i].node, e.node, log[i].node);
      }
    }
  }

  lemma NoAnswersYet<R(!new)>(m: Machine<R>, o: Limits, root: R, log: seq<Entry<R>>, i: nat)
    requires LogOk(m, o, root, log) && i + 1 >= |log|
    ensures AnswersTried(log, i) == []
  {
    hide LogOk;
    forall k | 0 <= k < |log| ensures log[k].node.parent != Some(i) {
      EntryAt(m, o, root, log, k);
    }
    assert [] + log == log;
    ChildrenOnlyFrom([], log, i);
  }

  /** `more` holds a visit's own node, answering `parent`, and below it only nodes it led to. */
  ghost predicate Subtree<R(!new)>(before: nat, more: seq<Entry<R>>, a: Arrival<R>) {
    && (more != [] ==> more[0].node.parent == a.parent && more[0].node.fallback == a.fallback)
    && (forall k {:trigger more[k]} :: 0 <= k < |more| ==> more[k].node.depth >= a.depth)
    && (forall k {:trigger more[k]} :: 0 < k < |more| ==> more[k].node.parent.Some? && more[k].node.parent.value >= before)
  }

  lemma OneMoreAnswer<R(!new)>(log: seq<Entry<R>>, more: seq<Entry<R>>, a: Arrival<R>, me: nat)
    requires me < |log| && more != [] && a.parent == Some(me) && a.fallback.Some? && Subtree(|log|, more, a)
    ensures AnswersTried(log + more, me) == AnswersTried(log, me) + [a.fallback.value]
  {
    var first := log + [more[0]];
    assert first + more[1..] == log + more;
    ChildrenOnlyFrom(first, more[1..], me);
    assert first[..|first| - 1] == log;
  }

  /** One more answer tried at `me`: everything below it is settled, and nothing else has changed. */
  lemma AnswerSettles<R(!new)>(o: Limits, log: seq<Entry<R>>, more: seq<Entry<R>>, a: Arrival<R>, me: nat)
    requires me < |log| && more != [] && a.parent == Some(me) && a.fallback.Some?
    requires Subtree(|log|, more, a) && SettledFrom(o, log, me + 1) && SettledFrom(o, log + more, |log|)
    ensures SettledFrom(o, log + more, me + 1)
    ensures AnswersTried(log + more, me) == AnswersTried(log, me) + [a.fallback.value]
  {
    hide Expands, AnswersTried;
    var next := log + more;
    OneMoreAnswer(log, more, a, me);
    forall i | me < i < |next| ensures AnswersTried(next, i) == if Expands(o, next[i].node) then FALLBACK_ORDER else [] {
      if i < |log| {
        ChildrenOnlyFrom(log, more, i);
        assert next[i] == log[i];
      }
    }
  }

  function NodesOf<R>(log: seq<Entry<R>>): (nodes: seq<Node>)
    ensures |nodes| == |log|
  {
    seq(|log|, i requires 0 <= i < |log| => log[i].node)
  }

  ghost predicate AllKept<R(!new)>(keeps: R -> bool, log: seq<Entry<R>>) {
    forall i {:trigger log[i]} :: 0 <= i < |log| ==> keeps(log[i].end)
  }

  /** The best node with the answers leading to it and the report of its run. */
  datatype Best = Best(node: nat, path: seq<Decision>, report: Segment)

  /** Nodes, expanded frontiers and best node are what the log says. */
  ghost predicate ReportOk<R(!new)>(m: Machine<R>, o: Limits, root: R, log: seq<Entry<R>>, nodes: seq<Node>, expanded: set<FrontierKey>, best: Best) {
    && LogOk(m, o, root, log)
    && nodes == NodesOf(log) && expanded == ExpandedKeys(o, log)
    && (log != [] ==> BestOf(log, best.node) && best.path == log[best.node].path && best.report == log[best.node].segment)
  }

  function Better(nodes: seq<Node>, n: Node, best: Best, path: seq<Decision>, segment: Segment): Best {
    if |nodes| == 0 || (best.node < |nodes| && Outranks(n, nodes[best.node])) then Best(|nodes|, path, segment) else best
  }

  class Explorer<R(!new)> {
    const machine: Machine<R>
    const limits: Limits
    ghost const root: R
    ghost const keeps: R -> bool

    var nodes: seq<Node>
    var dependencies: seq<Dependency>
    var globalDependencies: set<Dependency>
    var expandedFrontiers: set<FrontierKey>
    var totalRetired: nat
    var termination: Termination
    var bestNode: nat
    var bestPath: seq<Decision>
    var bestReport: Segment
    ghost var log: seq<Entry<R>>

    ghost predicate Valid()
      reads this
    {
      && ReportOk(machine, limits, root, log, nodes, expandedFrontiers, Best(bestNode, bestPath, bestReport))
      && |nodes| <= limits.maxNodes
      && AllKept(keeps, log)
      && totalRetired == TotalRetired(log) <= limits.maxTotalRetired
      && dependencies == Discovered(log) && globalDependencies == SetOf(dependencies)
      && (termination == NodeLimit ==> |nodes| == limits.maxNodes)
      && (termination == TotalRetiredLimit ==> totalRetired == limits.maxTotalRetired)
    }

    constructor (machine: Machine<R>, limits: Limits, ghost root: R, ghost keeps: R -> bool)
      ensures Valid() && log == [] && termination == Completed
      ensures this.machine == machine && this.limits == limits && this.root == root && this.keeps == keeps
    {
      this.machine, this.limits, this.root, this.keeps := machine, limits, root, keeps;
      nodes, dependencies, globalDependencies, expandedFrontiers := [], [], {}, {};
      totalRetired, termination, bestNode, bestPath := 0, Completed, 0, [];
      bestReport := Segment(0, Running, [], NO_METRICS);
      log := [];
    }

    method AddDependency(path: set<Dependency>, d: Dependency) returns (path': set<Dependency>)
      requires globalDependencies == SetOf(dependencies)
      modifies `dependencies, `globalDependencies
      ensures path' == path + {d} && globalDependencies == SetOf(dependencies)
      ensures dependencies == Noted(old(dependencies), [d])
    {
      path' := path + {d};
      if d !in globalDependencies {
        globalDependencies := globalDependencies + {d};
        dependencies := dependencies + [d];
      }
    }

    method AddProbes(path: set<Dependency>, mmio: seq<Mmio>) returns (path': set<Dependency>)
      requires globalDependencies == SetOf(dependencies)
      modifies `dependencies, `globalDependencies
      ensures path' == path + SetOf(ProbesOf(mmio)) && globalDependencies == SetOf(dependencies)
      ensures dependencies == Noted(old(dependencies), ProbesOf(mmio))
    {
      path' := path;
      for i := 0 to |mmio|
        invariant path' == path + SetOf(ProbesOf(mmio[..i])) && globalDependencies == SetOf(dependencies)
        invariant dependencies == Noted(old(dependencies), ProbesOf(mmio[..i]))
      {
        assert mmio[..i + 1][..i] == mmio[..i];
        ghost var sofar := ProbesOf(mmio[..i]);
        if !mmio[i].speculative {
          assert ProbesOf(mmio[..i + 1]) == sofar + [] == sofar;
          continue;
        }
        var d := SpeculativeMmio(mmio[i].address, mmio[i].width, mmio[i].write);
        path' := AddDependency(path', d);
        NotedMore(old(dependencies), sofar, d);
        assert ProbesOf(mmio[..i + 1]) == sofar + [d];
      }
      assert mmio[..|mmio|] == mmio;
    }

    method AddFound(path: set<Dependency>, segment: Segment, frontier: Option<FrontierAt>) returns (path': set<Dependency>)
      requires globalDependencies == SetOf(dependencies)
      modifies `dependencies, `globalDependencies
      ensures path' == path + SetOf(FoundBy(segment, frontier)) && globalDependencies == SetOf(dependencies)
      ensures dependencies == Noted(old(dependencies), FoundBy(segment, frontier))
    {
      hide ProbesOf, Noted, SetOf;
      path' := AddProbes(path, segment.mmio);
      if frontier.Some? {
        NotedMore(old(dependencies), ProbesOf(segment.mmio), BiosFrontier(frontier.value));
        path' := AddDependency(path', BiosFrontier(frontier.value));
      } else {
        assert FoundBy(segment, frontier) == ProbesOf(segment.mmio);
      }
    }

    /** A frontier above the depth limit is claimed by the first node that reaches it; later ones are marked. */
    method PushNode(summary: Node) returns (n: Node, branches: bool)
      requires !summary.deduplicated
      modifies `nodes, `expandedFrontiers
      ensures nodes == old(nodes) + [n] && branches == Expands(limits, n)
      ensures n == summary.(deduplicated := CanBranch(limits, n) && KeyOf(n) in old(expandedFrontiers))
      ensures expandedFrontiers == old(expandedFrontiers) + if Expands(limits, n) then {KeyOf(n)} else {}
    {
      n := summary;
      nodes := nodes + [summary];
      branches := CanBranch(limits, summary);
      if branches {
        var key := KeyOf(summary);
        if key in expandedFrontiers {
          n := n.(deduplicated := true);
          nodes := nodes[|nodes| - 1 := n];
          branches := false;
        } else {
          expandedFrontiers := expandedFrontiers + {key};
        }
      }
    }

    method KeepBest(path: seq<Decision>, segment: Segment)
      requires |nodes| > 0 && (|nodes| > 1 ==> bestNode < |nodes| - 1)
      modifies `bestNode, `bestPath, `bestReport
      ensures Best(bestNode, bestPath, bestReport)
           == Better(nodes[..|nodes| - 1], nodes[|nodes| - 1], old(Best(bestNode, bestPath, bestReport)), path, segment)
    {
      if |nodes| == 1 || Outranks(nodes[|nodes| - 1], nodes[bestNode]) {
        bestNode, bestPath, bestReport := |nodes| - 1, path, segment;
      }
    }

    /** Takes a finished run into the report. */
    method AddNode(summary: Node, a: Arrival<R>, end: R, segment: Segment, known: set<Dependency>) returns (branches: bool, ghost e: Entry<R>)
      requires ReportOk(machine, limits, root, log, nodes, expandedFrontiers, Best(bestNode, bestPath, bestReport))
      requires ArrivalOk(machine, limits, root, log, a) && Ran(machine, limits, log, a, Entry(summary, a.start, end, segment, a.path, known))
      requires !summary.deduplicated
      modifies `nodes, `expandedFrontiers, `bestNode, `bestPath, `bestReport, `log
      ensures log == old(log) + [e]
      ensures ReportOk(machine, limits, root, log, nodes, expandedFrontiers, Best(bestNode, bestPath, bestReport))
      ensures e == Entry(summary.(deduplicated := e.node.deduplicated), a.start, end, segment, a.path, known)
      ensures branches == Expands(limits, e.node)
    {
      hide *;
      ghost var before, nodes0, best := log, nodes, Best(bestNode, bestPath, bestReport);
      ghost var expanded := expandedFrontiers;
      BestIsANode(machine, limits, root, before, nodes0, expanded, best);
      var n: Node;
      n, branches := PushNode(summary);
      assert nodes[..|nodes| - 1] == nodes0;
      KeepBest(a.path, segment);
      e := Entry(n, a.start, end, segment, a.path, known);
      Recorded(machine, limits, root, before, nodes0, expanded, best, a, summary, e);
      log := log + [e];
    }

    /** Runs the machine of one visit and records it. `branches` says whether its answers are to be tried. */
    method RecordRun(a: Arrival<R>) returns (end: R, segment: Segment, known: set<Dependency>, branches: bool, ghost e: Entry<R>)
      requires Valid() && MachineOk(machine, keeps) && keeps(a.start) && ArrivalOk(machine, limits, root, log, a)
      requires termination == Completed && |nodes| < limits.maxNodes
      modifies this
      ensures Valid() && log == old(log) + [e] && termination == Completed
      ensures e.end == end && e.segment == segment && e.known == known && e.path == a.path
      ensures e.node.parent == a.parent && e.node.fallback == a.fallback && e.node.depth == a.depth
      ensures branches == Expands(limits, e.node)
      ensures LogOk(machine, limits, root, log) && |nodes| == |log| && nodes[|nodes| - 1] == e.node
      ensures branches ==> forall f :: machine.fallback(end, f).Some? && keeps(machine.fallback(end, f).value)
    {
      hide LogOk, BestOf, Discovered, TotalRetired, ExpandedKeys, Noted, FoundBy, Accumulate, SetOf, MachineOk, ArrivalOk, FrontierOf, NodesOf, AllKept, Expands;
      ghost var before := log;
      var budget := Min(limits.segmentBudget, Remaining(limits.maxTotalRetired, totalRetired));
      end, segment := machine.run(a.start, budget).0, machine.run(a.start, budget).1;
      MachineRuns(machine, keeps, a.start, budget);
      totalRetired := totalRetired + segment.retired;
      var metrics := Accumulate(a.metrics, segment);
      var frontier := FrontierOf(machine, end, segment);
      known := AddFound(a.known, segment, frontier);
      var summary := Node(|nodes|, a.parent, a.depth, a.fallback, segment.stop, segment.retired, a.cumulative + segment.retired,
                          machine.hash(end), false, frontier, metrics, |known|);
      branches, e := AddNode(summary, a, end, segment, known);
      LogMeasuresGrow(limits, before, e, keeps);
      BranchHasFrontier(limits, e.node);
      BestIsANode(machine, limits, root, log, nodes, expandedFrontiers, Best(bestNode, bestPath, bestReport));
      LastNode(log, e);
    }

    method Terminate(reason: Termination)
      requires Valid() && reason != Completed
      requires reason == NodeLimit ==> |nodes| >= limits.maxNodes
      requires reason == TotalRetiredLimit ==> totalRetired >= limits.maxTotalRetired
      modifies `termination
      ensures Valid() && termination == reason
    {
      hide ReportOk, AllKept, Discovered, TotalRetired, SetOf;
      termination := reason;
    }

    /** Runs one machine and, where it stopped at an unimplemented call, tries every answer, depth first. */
    method Visit(a: Arrival<R>)
      requires Valid() && MachineOk(machine, keeps) && keeps(a.start) && ArrivalOk(machine, limits, root, log, a)
      modifies this
      decreases limits.maxBranchDepth - a.depth, 2
      ensures Valid() && Visited(limits, old(log), log, a, termination == Completed)
      ensures old(log) == [] && old(termination) == Completed && limits.maxNodes > 0 ==> log != []
    {
      hide *;
      KnownLog();
      NothingVisited(machine, limits, root, log, a);
      if termination != Completed {
        return;
      }
      if |nodes| >= limits.maxNodes {
        Terminate(NodeLimit);
        return;
      }
      if |nodes| != 0 && totalRetired >= limits.maxTotalRetired {
        Terminate(TotalRetiredLimit);
        return;
      }
      ghost var before := log;
      var index := |nodes|;
      var end, segment, known, branches, e := RecordRun(a);
      OneVisited(machine, limits, root, before, e, a);
      if totalRetired >= limits.maxTotalRetired {
        Terminate(TotalRetiredLimit);
        return;
      }
      if branches {
        TryAnswers(index, end, a.path, known, e);
        AllVisited(limits, before, log, e, a, termination == Completed);
      }
    }

    /** The four answers, each on a copy of the machine that stopped at node `index`. */
    method TryAnswers(index: nat, end: R, path: seq<Decision>, known: set<Dependency>, ghost e: Entry<R>)
      requires Valid() && MachineOk(machine, keeps) && termination == Completed
      requires |nodes| == |log| == index + 1 && nodes[index] == e.node && log[index] == e
      requires e.end == end && e.path == path && e.known == known && Expands(limits, e.node)
      requires forall f :: machine.fallback(end, f).Some? && keeps(machine.fallback(end, f).value)
      modifies this
      decreases limits.maxBranchDepth - e.node.depth, 1
      ensures Valid() && AnswersSoFar(limits, old(log), log, index, 4, termination == Completed)
    {
      ghost var base := log;
      hide *;
      var node := nodes[index];
      BranchHasFrontier(limits, node);
      KnownLog();
      NoneTried(machine, limits, root, log);
      for k := 0 to 4
        invariant Valid() && termination == Completed && AnswersSoFar(limits, base, log, index, k, true)
        invariant index < |log| && log[index] == e
      {
        StillThere(limits, base, log, index, k, true);
        if |nodes| >= limits.maxNodes {
          Terminate(NodeLimit);
          return;
        }
        if totalRetired >= limits.maxTotalRetired {
          Terminate(TotalRetiredLimit);
          return;
        }
        TryAnswer(k, index, node, end, path, known, base, e);
        if termination != Completed {
          return;
        }
      }
    }

    method TryAnswer(k: nat, index: nat, node: Node, end: R, path: seq<Decision>, known: set<Dependency>, ghost base: seq<Entry<R>>, ghost e: Entry<R>)
      requires Valid() && MachineOk(machine, keeps) && termination == Completed && k < 4
      requires AnswersSoFar(limits, base, log, index, k, true) && |base| <= |log| && log[index] == e
      requires e == Entry(node, e.start, end, e.segment, path, known) && Expands(limits, node) && index + 1 == |base|
      requires forall f :: machine.fallback(end, f).Some? && keeps(machine.fallback(end, f).value)
      modifies this
      decreases limits.maxBranchDepth - node.depth, 0
      ensures Valid() && AnswersSoFar(limits, base, log, index, k + 1, termination == Completed)
      ensures AnswersSoFar(limits, base, log, index, 4, false)
      ensures |base| <= |log| && log[index] == e
    {
      hide *;
      FourAnswers();
      BranchHasFrontier(limits, node);
      var policy := FALLBACK_ORDER[k];
      var child := machine.fallback(end, policy);
      if child.None? {
        assert false;
      }
      var a := Arrival(child.value, node.depth + 1, Some(index), Some(policy), node.cumulativeRetired, node.metrics,
                       path + [Decision(node.frontier.value, policy)], known);
      ghost var before := log;
      StillThere(limits, base, before, index, k, true);
      ChildArrives(machine, limits, root, base, before, index, k, a);
      Visit(a);
      AnswerTried(limits, base, before, log, index, k, a, termination == Completed);
      StillThere(limits, base, log, index, k + 1, termination == Completed);
    }

    /** The whole exploration, from the machine as it was loaded. */
    method Run(start: R) returns (r: Result<ExplorationReport>)
      requires Valid() && log == [] && termination == Completed
      requires start == root && MachineOk(machine, keeps) && keeps(root)
      modifies this
      ensures limits.maxNodes == 0 ==> r == Failure(InvalidArgument)
      ensures limits.maxNodes > 0 ==> r.Success? && Explains(machine, limits, root, log, r.value)
    {
      if limits.maxNodes == 0 {
        return Failure(InvalidArgument);
      }
      hide LogOk, ReportOk, AllKept, Discovered, TotalRetired, SetOf, SettledFrom, CompleteTree, MachineOk;
      var a := Arrival(start, 0, None, None, 0, NO_METRICS, [], {});
      Visit(a);
      OpenReport(machine, limits, root, log, nodes, expandedFrontiers, Best(bestNode, bestPath, bestReport));
      r := Success(ExplorationReport(termination, totalRetired, nodes, dependencies, bestNode, bestPath, bestReport));
    }

    lemma KnownLog()
      requires Valid()
      ensures LogOk(machine, limits, root, log) && |nodes| == |log|
    {
    }
  }

  datatype ExplorationReport = ExplorationReport(termination: Termination, totalRetired: nat, nodes: seq<Node>, dependencies: seq<Dependency>,
                           bestNode: nat, bestPath: seq<Decision>, bestReport: Segment)

  /** All that a report promises: it tells of runs that are what their limits, their parents and the machine make
      them, of no more than these, and, unless a limit cut it short, of all of them. */
  ghost predicate Explains<R(!new)>(m: Machine<R>, o: Limits, root: R, log: seq<Entry<R>>, r: ExplorationReport) {
    && LogOk(m, o, root, log) && r.nodes == NodesOf(log)
    && 1 <= |log| <= o.maxNodes && |log| <= CompleteTree(o.maxBranchDepth)
    && r.totalRetired == TotalRetired(log) <= o.maxTotalRetired
    && r.dependencies == Discovered(log)
    && BestOf(log, r.bestNode) && r.bestPath == log[r.bestNode].path && r.bestReport == log[r.bestNode].segment
    && match r.termination
       case Completed => SettledFrom(o, log, 0)
       case NodeLimit => |log| == o.maxNodes
       case TotalRetiredLimit => r.totalRetired == o.maxTotalRetired
  }

  lemma OpenReport<R(!new)>(m: Machine<R>, o: Limits, root: R, log: seq<Entry<R>>, nodes: seq<Node>, expanded: set<FrontierKey>, best: Best)
    requires ReportOk(m, o, root, log, nodes, expanded, best)
    ensures LogOk(m, o, root, log) && nodes == NodesOf(log) && |nodes| == |log|
    ensures log != [] ==> BestOf(log, best.node) && best.path == log[best.node].path && best.report == log[best.node].segment
  {
  }

  /** From `before` to `after` one visit: it adds its own node and what that leads to, no more than a complete tree
      of the remaining height holds, and unless it was cut short everything it adds is settled. */
  ghost predicate Visited<R(!new)>(o: Limits, before: seq<Entry<R>>, after: seq<Entry<R>>, a: Arrival<R>, completed: bool) {
    && before <= after && Subtree(|before|, after[|before|..], a)
    && a.depth <= o.maxBranchDepth && |after| <= |before| + CompleteTree(o.maxBranchDepth - a.depth)
    && (completed ==> after != before && SettledFrom(o, after, |before|))
  }

  ghost predicate Below<R(!new)>(log: seq<Entry<R>>, me: nat)
    requires me < |log|
  {
    forall k {:trigger log[k]} :: me < k < |log| ==>
      log[k].node.parent.Some? && log[k].node.parent.value >= me && log[k].node.depth > log[me].node.depth
  }

  /** After `count` answers at `me`, the last entry of `before`. */
  ghost predicate AnswersSoFar<R(!new)>(o: Limits, before: seq<Entry<R>>, after: seq<Entry<R>>, me: nat, count: nat, completed: bool) {
    && before <= after && |before| == me + 1 && count <= 4
    && Below(after, me)
    && after[me].node.depth < o.maxBranchDepth
    && |after| <= |before| + count * CompleteTree(o.maxBranchDepth - after[me].node.depth - 1)
    && (completed ==> AnswersTried(after, me) == FALLBACK_ORDER[..count] && SettledFrom(o, after, me + 1))
  }

  lemma FourAnswers()
    ensures |FALLBACK_ORDER| == 4
  {
  }

  lemma NothingVisited<R(!new)>(m: Machine<R>, o: Limits, root: R, log: seq<Entry<R>>, a: Arrival<R>)
    requires ArrivalOk(m, o, root, log, a)
    ensures Visited(o, log, log, a, false) && a.depth <= o.maxBranchDepth
  {
  }

  lemma OneVisited<R(!new)>(m: Machine<R>, o: Limits, root: R, before: seq<Entry<R>>, e: Entry<R>, a: Arrival<R>)
    requires LogOk(m, o, root, before + [e]) && a.depth <= o.maxBranchDepth
    requires e.node.parent == a.parent && e.node.fallback == a.fallback && e.node.depth == a.depth
    ensures Visited(o, before, before + [e], a, !Expands(o, e.node)) && Visited(o, before, before + [e], a, false)
  {
    hide LogOk, Expands;
    NoAnswersYet(m, o, root, before + [e], |before|);
    assert (before + [e])[|before|..] == [e];
  }

  lemma NoneTried<R(!new)>(m: Machine<R>, o: Limits, root: R, log: seq<Entry<R>>)
    requires LogOk(m, o, root, log) && log != [] && Expands(o, log[|log| - 1].node)
    ensures AnswersSoFar(o, log, log, |log| - 1, 0, true)
  {
    hide LogOk;
    NoAnswersYet(m, o, root, log, |log| - 1);
  }

  lemma AnswerTried<R(!new)>(o: Limits, base: seq<Entry<R>>, before: seq<Entry<R>>, after: seq<Entry<R>>, me: nat, count: nat, child: Arrival<R>, completed: bool)
    requires AnswersSoFar(o, base, before, me, count, true) && count < 4
    requires child.parent == Some(me) && child.fallback == Some(FALLBACK_ORDER[count]) && child.depth == before[me].node.depth + 1
    requires Visited(o, before, after, child, completed)
    ensures AnswersSoFar(o, base, after, me, count + 1, completed)
  {
    hide AnswersTried, SettledFrom, CompleteTree;
    var more := after[|before|..];
    assert after == before + more;
    if completed {
      AnswerSettles(o, before, more, child, me);
    }
    assert Below(after, me);
  }

  lemma ChildArrives<R(!new)>(m: Machine<R>, o: Limits, root: R, base: seq<Entry<R>>, log: seq<Entry<R>>, me: nat, count: nat, a: Arrival<R>)
    requires AnswersSoFar(o, base, log, me, count, true) && Expands(o, log[me].node)
    requires var p := log[me];
      && a.parent == Some(me) && a.fallback.Some? && m.fallback(p.end, a.fallback.value) == Some(a.start)
      && a == Arrival(a.start, p.node.depth + 1, a.parent, a.fallback, p.node.cumulativeRetired, p.node.metrics,
                      p.path + [Decision(p.node.frontier.value, a.fallback.value)], p.known)
    ensures ArrivalOk(m, o, root, log, a) && a.depth <= o.maxBranchDepth
  {
  }

  lemma StillThere<R(!new)>(o: Limits, base: seq<Entry<R>>, log: seq<Entry<R>>, me: nat, count: nat, completed: bool)
    requires AnswersSoFar(o, base, log, me, count, completed)
    ensures me + 1 == |base| <= |log| && log[me] == base[me]
    ensures AnswersSoFar(o, base, log, me, 4, false)
  {
    var c := CompleteTree(o.maxBranchDepth - log[me].node.depth - 1);
    assert count * c <= 4 * c;
  }

  lemma AllVisited<R(!new)>(o: Limits, before: seq<Entry<R>>, after: seq<Entry<R>>, e: Entry<R>, a: Arrival<R>, completed: bool)
    requires AnswersSoFar(o, before + [e], after, |before|, 4, completed) && Expands(o, e.node)
    requires e.node.parent == a.parent && e.node.fallback == a.fallback && e.node.depth == a.depth
    ensures Visited(o, before, after, a, completed) && |before| < |after|
  {
    assert after[|before|] == e;
    var more := after[|before|..];
    forall k | 0 <= k < |more| ensures more[k] == after[|before| + k] {
    }
  }

  lemma MachineRuns<R(!new)>(m: Machine<R>, keeps: R -> bool, r: R, budget: nat)
    requires MachineOk(m, keeps) && keeps(r)
    ensures var (end, segment) := m.run(r, budget);
      keeps(end) && segment.retired <= budget && (FrontierOf(m, end, segment).Some? ==> forall f :: m.fallback(end, f).Some? && keeps(m.fallback(end, f).value))
  {
  }

  lemma LogMeasuresGrow<R(!new)>(o: Limits, log: seq<Entry<R>>, e: Entry<R>, keeps: R -> bool)
    ensures TotalRetired(log + [e]) == TotalRetired(log) + e.node.segmentRetired
    ensures Discovered(log + [e]) == Noted(Discovered(log), FoundBy(e.segment, e.node.frontier))
    ensures |NodesOf(log + [e])| == |log| + 1
    ensures AllKept(keeps, log) && keeps(e.end) ==> AllKept(keeps, log + [e])
  {
    assert (log + [e])[..|log|] == log;
  }

  /** `e` is the run that an arrival asks for. */
  ghost predicate Ran<R(!new)>(m: Machine<R>, o: Limits, log: seq<Entry<R>>, a: Arrival<R>, e: Entry<R>) {
    var n := e.node;
    && (e.end, e.segment) == m.run(a.start, NextBudget(o, log))
    && n.frontier == FrontierOf(m, e.end, e.segment)
    && n == Node(|log|, a.parent, a.depth, a.fallback, e.segment.stop, e.segment.retired, a.cumulative + e.segment.retired,
                 m.hash(e.end), n.deduplicated, n.frontier, Accumulate(a.metrics, e.segment), |e.known|)
    && e == Entry(n, a.start, e.end, e.segment, a.path, a.known + SetOf(FoundBy(e.segment, n.frontier)))
  }

  lemma NodesGrow<R(!new)>(log: seq<Entry<R>>, e: Entry<R>)
    ensures NodesOf(log + [e]) == NodesOf(log) + [e.node]
  {
  }

  lemma BranchHasFrontier(o: Limits, n: Node)
    ensures Expands(o, n) ==> n.frontier.Some?
  {
  }

  lemma LastNode<R(!new)>(log: seq<Entry<R>>, e: Entry<R>)
    requires log != [] && log[|log| - 1] == e
    ensures NodesOf(log)[|log| - 1] == e.node
  {
  }

  lemma BestIsANode<R(!new)>(m: Machine<R>, o: Limits, root: R, log: seq<Entry<R>>, nodes: seq<Node>, expanded: set<FrontierKey>, best: Best)
    requires ReportOk(m, o, root, log, nodes, expanded, best)
    ensures LogOk(m, o, root, log) && nodes == NodesOf(log) && |nodes| == |log| && (nodes != [] ==> best.node < |nodes| && nodes[best.node] == log[best.node].node)
  {
    hide LogOk, ExpandedKeys;
  }

  lemma NewLogOk<R(!new)>(m: Machine<R>, o: Limits, root: R, log: seq<Entry<R>>, a: Arrival<R>, summary: Node, e: Entry<R>)
    requires LogOk(m, o, root, log) && ArrivalOk(m, o, root, log, a) && Ran(m, o, log, a, e.(node := summary))
    requires e.node == summary.(deduplicated := CanBranch(o, e.node) && KeyOf(e.node) in ExpandedKeys(o, log))
    ensures LogOk(m, o, root, log + [e])
  {
    hide ExpandedKeys, FoundBy, SetOf, LogOk, EntryOk, Accumulate, FrontierOf, CanBranch, NextBudget;
    assert a.depth <= o.maxBranchDepth;
    assert RunOk(m, o, log, e);
    NewEntryOk(m, o, root, log, a, e);
    LogGrows(m, o, root, log, e);
  }

  /** Everything a new entry adds to what the log says of nodes, frontiers and rank. */
  lemma Recorded<R(!new)>(m: Machine<R>, o: Limits, root: R, log: seq<Entry<R>>, nodes: seq<Node>, expanded: set<FrontierKey>, best: Best,
                          a: Arrival<R>, summary: Node, e: Entry<R>)
    requires ReportOk(m, o, root, log, nodes, expanded, best) && ArrivalOk(m, o, root, log, a) && Ran(m, o, log, a, e.(node := summary))
    requires e.node == summary.(deduplicated := CanBranch(o, e.node) && KeyOf(e.node) in expanded)
    ensures ReportOk(m, o, root, log + [e], nodes + [e.node],
                     expanded + (if Expands(o, e.node) then {KeyOf(e.node)} else {}), Better(nodes, e.node, best, e.path, e.segment))
  {
    hide ExpandedKeys, Ran, ArrivalOk, LogOk, BestOf, Outranks, CanBranch, NodesOf;
    NewLogOk(m, o, root, log, a, summary, e);
    ExpandedKeysGrow(o, log, e);
    NodesGrow(log, e);
    BestIsANode(m, o, root, log, nodes, expanded, best);
    BestGrows(log, best.node, e);
    var b := Better(nodes, e.node, best, e.path, e.segment);
    assert b.node < |log| ==> b == best && (log + [e])[b.node] == log[b.node];
  }

  lemma NotedMore(known: seq<Dependency>, found: seq<Dependency>, d: Dependency)
    ensures Noted(known, found + [d]) == Noted(Noted(known, found), [d])
    ensures SetOf(found + [d]) == SetOf(found) + {d}
  {
    assert (found + [d])[..|found|] == found;
    assert [d][..0] == [];
  }

  // ----- The boot runtime as such a machine -----

  /** A run of the boot runtime; one that never ends is left out of consideration. */
  ghost function RunRuntime(o: Options, rt: Runtime, budget: nat): (Runtime, Segment) {
    var o' := o.(budget := budget);
    if Halts(o', Start(rt, o')) then
      var last := Final(o', Start(rt, o'));
      (last.rt, Segment(last.report.retired, Finished(last.report).stop, LastOf(last.report.mmio, o.mmioCapacity), NO_METRICS))
    else (rt, Segment(0, Running, [], NO_METRICS))
  }

  ghost function FallbackOn(rt: Runtime, f: Fallback): Option<Runtime> {
    if AtFrontier(rt) then Some(FallbackApplied(rt, f)) else None
  }

  ghost function TableOf(rt: Runtime): Option<FrontierAt> {
    if TableAt(rt.cpu.pc).Some? then Some(FrontierAt(TableAt(rt.cpu.pc).value, rt.cpu.gpr[9])) else None
  }

  ghost function BootMachine(o: Options, hash: Runtime -> nat): Machine<Runtime> {
    Machine((rt, budget) => RunRuntime(o, rt, budget), (rt, f) => FallbackOn(rt, f), hash, rt => TableOf(rt))
  }

  lemma RunRuntimeOk(o: Options, rt: Runtime, budget: nat)
    requires PipelineOk(rt.cpu)
    ensures var (end, segment) := RunRuntime(o, rt, budget);
      PipelineOk(end.cpu) && segment.retired <= budget && (segment.stop == BiosCallUnimplemented ==> AtFrontier(end))
  {
    hide PipelineOk, AtFrontier, LastOf, Start, Halts, Final;
    var o' := o.(budget := budget);
    if Halts(o', Start(rt, o')) {
      FinishedRun(rt, o', PreserveV0);
    }
  }

  /** The boot runtime is a machine an exploration can rely on. */
  lemma BootMachineIsOk(o: Options, hash: Runtime -> nat)
    ensures MachineOk(BootMachine(o, hash), (rt: Runtime) => PipelineOk(rt.cpu))
  {
    hide PipelineOk, RunRuntime, Answered, TableAt;
    forall rt: Runtime, budget: nat | PipelineOk(rt.cpu)
      ensures var (end, segment) := RunRuntime(o, rt, budget);
        PipelineOk(end.cpu) && segment.retired <= budget && (segment.stop == BiosCallUnimplemented ==> AtFrontier(end)) {
      RunRuntimeOk(o, rt, budget);
    }
    forall cpu: Cpu, f: Fallback | PipelineOk(cpu) ensures PipelineOk(Answered(cpu, f)) {
      AnswerKeepsPipeline(cpu, f);
    }
  }
}
