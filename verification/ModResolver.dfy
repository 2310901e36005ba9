/** resolve_mod_set of core/mod_resolver.cpp: a depth-first dependency closure with cycle detection, a
    conflict check, and Kahn's algorithm with an ordered ready set.

    The specification knows neither algorithm: it speaks of chains of dependencies from the
    requested mods, and of the lexicographically least dependency-respecting order. */
module ModResolver {
  import opened Outcomes
  import opened Ids
  import Semver

  datatype Dependency = Dependency(id: Id, requirement: Semver.Requirement)

  datatype Manifest = Manifest(id: Id, version: Semver.Version, apiVersion: Semver.Version,
                               dependencies: seq<Dependency>, conflicts: seq<Id>)

  type Mods = map<Id, Manifest>

  const API_VERSION := Semver.Version(1, 0, 0)

  // ----- Specification -----

  ghost predicate UniqueIds(catalog: seq<Manifest>) {
    forall i, j :: 0 <= i < j < |catalog| ==> catalog[i].id != catalog[j].id
  }

  ghost function ById(catalog: seq<Manifest>): Mods {
    if catalog == [] then map[]
    else ById(catalog[..|catalog| - 1])[catalog[|catalog| - 1].id := catalog[|catalog| - 1]]
  }

  ghost predicate DependsOn(mods: Mods, a: Id, b: Id) {
    a in mods && exists k :: 0 <= k < |mods[a].dependencies| && mods[a].dependencies[k].id == b
  }

  /** Each element depends on the next. */
  ghost predicate Chain(mods: Mods, path: seq<Id>) {
    path != [] && forall i :: 0 <= i < |path| - 1 ==> DependsOn(mods, path[i], path[i + 1])
  }

  ghost predicate ChainTo(mods: Mods, requested: set<Id>, path: seq<Id>, id: Id) {
    Chain(mods, path) && path[0] in requested && path[|path| - 1] == id
  }

  /** `id` belongs to the dependency closure of the request. */
  ghost predicate Needed(mods: Mods, requested: set<Id>, id: Id) {
    exists path :: ChainTo(mods, requested, path, id)
  }

  predicate ApiCompatible(m: Manifest) {
    m.apiVersion.major == API_VERSION.major && Semver.Compare(m.apiVersion, API_VERSION) <= 0
  }

  /** Present, made for this host, and every dependency present in a matching version. */
  ghost predicate Sound(mods: Mods, id: Id) {
    && id in mods
    && ApiCompatible(mods[id])
    && forall k :: 0 <= k < |mods[id].dependencies| ==> SatisfiedBy(mods, mods[id].dependencies[k])
  }

  ghost predicate SatisfiedBy(mods: Mods, d: Dependency) {
    d.id in mods && Semver.Matches(d.requirement, mods[d.id].version)
  }

  ghost predicate OnCycle(mods: Mods, id: Id) {
    exists path :: Chain(mods, path) && |path| >= 2 && path[0] == id && path[|path| - 1] == id
  }

  ghost predicate Conflicting(mods: Mods, a: Id, b: Id) {
    a in mods && b in mods[a].conflicts
  }

  ghost predicate Resolvable(mods: Mods, requested: set<Id>) {
    && (forall id :: Needed(mods, requested, id) ==> Sound(mods, id) && !OnCycle(mods, id))
    && (forall a, b :: Needed(mods, requested, a) && Needed(mods, requested, b) ==> !Conflicting(mods, a, b))
  }

  ghost predicate Distinct(order: seq<Id>) {
    forall i, j :: 0 <= i < j < |order| ==> order[i] != order[j]
  }

  /** Everything in `s` that `id` depends on is already in `loaded`. */
  ghost predicate DependenciesIn(mods: Mods, s: set<Id>, id: Id, loaded: seq<Id>) {
    forall d :: d in s && DependsOn(mods, id, d) ==> d in loaded
  }

  /** `order` lists exactly `s`, once each, every mod after what it depends on. */
  ghost predicate IsLoadOrder(mods: Mods, s: set<Id>, order: seq<Id>) {
    && Distinct(order)
    && (forall id :: id in order <==> id in s)
    && forall i :: 0 <= i < |order| ==> DependenciesIn(mods, s, order[i], order[..i])
  }

  ghost predicate IsLeastLoadOrder(mods: Mods, s: set<Id>, order: seq<Id>) {
    && IsLoadOrder(mods, s, order)
    && forall other :: IsLoadOrder(mods, s, other) ==> Precedes(order, other)
  }

  ghost predicate IsClosure(mods: Mods, requested: set<Id>, s: set<Id>) {
    forall id :: id in s <==> Needed(mods, requested, id)
  }

  /** The least order is unique, so the result is a function of the closure alone: neither the order of
      the request nor repeated entries can change it. */
  lemma LeastLoadOrderIsUnique(mods: Mods, s: set<Id>, a: seq<Id>, b: seq<Id>)
    requires IsLeastLoadOrder(mods, s, a) && IsLeastLoadOrder(mods, s, b)
    ensures a == b
  {
    PrecedesAntisymmetric(a, b);
  }

  // ----- The closure -----

  lemma RequestedIsNeeded(mods: Mods, requested: set<Id>, id: Id)
    requires id in requested
    ensures Needed(mods, requested, id)
  {
    assert ChainTo(mods, requested, [id], id);
  }

  lemma DependencyIsNeeded(mods: Mods, requested: set<Id>, a: Id, b: Id)
    requires Needed(mods, requested, a) && DependsOn(mods, a, b)
    ensures Needed(mods, requested, b)
  {
    var path :| ChainTo(mods, requested, path, a);
    assert ChainTo(mods, requested, path + [b], b);
  }

  /** Whatever contains the request and is closed under dependency contains everything needed. */
  lemma {:induction false} ClosedContainsChain(mods: Mods, requested: set<Id>, s: set<Id>, path: seq<Id>)
    requires requested <= s
    requires forall a, b :: a in s && DependsOn(mods, a, b) ==> b in s
    requires Chain(mods, path) && path[0] in requested
    ensures path[|path| - 1] in s
    decreases |path|
  {
    if |path| > 1 {
      var shorter := path[..|path| - 1];
      forall i | 0 <= i < |shorter| - 1 ensures DependsOn(mods, shorter[i], shorter[i + 1]) {
        assert DependsOn(mods, path[i], path[i + 1]);
      }
      ClosedContainsChain(mods, requested, s, shorter);
      assert DependsOn(mods, path[|path| - 2], path[|path| - 2 + 1]);
    }
  }

  ghost function IndexOf(s: seq<Id>, x: Id): nat
    requires x in s
    ensures IndexOf(s, x) < |s| && s[IndexOf(s, x)] == x
  {
    var i :| 0 <= i < |s| && s[i] == x;
    i
  }

  /** Along a chain inside a load order the positions strictly decrease. */
  lemma {:induction false} ChainDescends(mods: Mods, order: seq<Id>, path: seq<Id>, k: nat)
    requires Distinct(order)
    requires DependenciesFirst(mods, order)
    requires Chain(mods, path) && path[0] in order && 0 < k < |path|
    ensures path[k] in order && IndexOf(order, path[k]) < IndexOf(order, path[0])
    decreases k
  {
    if k > 1 {
      ChainDescends(mods, order, path, k - 1);
    }
    var i := IndexOf(order, path[k - 1]);
    assert DependsOn(mods, path[k - 1], path[k - 1 + 1]);
    assert path[k] in order[..i];
    var j :| 0 <= j < i && order[..i][j] == path[k];
    assert order[j] == path[k];
  }

  /** What a successful depth-first search leaves behind is exactly the closure, sound and acyclic. */
  lemma FinishedSearchIsClosure(mods: Mods, requested: set<Id>, finished: seq<Id>)
    requires Distinct(finished)
    requires forall id :: id in requested ==> id in finished
    requires forall id :: id in finished ==> Needed(mods, requested, id) && Sound(mods, id)
    requires DependenciesFirst(mods, finished)
    ensures forall id :: id in finished <==> Needed(mods, requested, id)
    ensures forall id :: id in finished ==> !OnCycle(mods, id)
  {
    var s := set id | id in finished;
    forall a, b | a in s && DependsOn(mods, a, b) ensures b in s {
      assert finished[IndexOf(finished, a)] == a;
    }
    forall id | Needed(mods, requested, id) ensures id in finished {
      var path :| ChainTo(mods, requested, path, id);
      ClosedContainsChain(mods, requested, s, path);
    }
    forall id | id in finished ensures !OnCycle(mods, id) {
      if path :| Chain(mods, path) && |path| >= 2 && path[0] == id && path[|path| - 1] == id {
        ChainDescends(mods, finished, path, |path| - 1);
        assert false;
      }
    }
  }

  datatype VisitState = Visiting | Done

  /** The depth-first search in progress: `trail` is the chain of mods under visit, `finished` lists the
      done ones, dependencies first. */
  ghost predicate Searching(mods: Mods, requested: set<Id>, visit: map<Id, VisitState>,
                            trail: seq<Id>, finished: seq<Id>) {
    && visit.Keys <= mods.Keys
    && Distinct(finished) && Distinct(trail)
    && (forall id {:trigger id in trail} :: id in trail <==> id in visit && visit[id] == Visiting)
    && (forall id {:trigger id in finished} :: id in finished <==> id in visit && visit[id] == Done)
    && (forall id :: id in visit ==> Needed(mods, requested, id) && ApiCompatible(mods[id]))
    && (forall id {:trigger Sound(mods, id)} :: id in finished ==> Sound(mods, id))
    && DependenciesFirst(mods, finished)
    && (trail != [] ==> Chain(mods, trail) && trail[0] in requested)
  }

  ghost predicate DependenciesFirst(mods: Mods, order: seq<Id>) {
    forall i, d :: 0 <= i < |order| && DependsOn(mods, order[i], d) ==> d in order[..i]
  }

  /** The search reached `id` from the end of the trail, or from the request. */
  ghost predicate Reached(mods: Mods, requested: set<Id>, trail: seq<Id>, id: Id) {
    if trail == [] then id in requested else DependsOn(mods, trail[|trail| - 1], id)
  }

  lemma ReachedIsNeeded(mods: Mods, requested: set<Id>, trail: seq<Id>, id: Id)
    requires trail != [] ==> Chain(mods, trail) && trail[0] in requested
    requires Reached(mods, requested, trail, id)
    ensures Needed(mods, requested, id)
    ensures Chain(mods, trail + [id]) && (trail + [id])[0] in requested
  {
    assert ChainTo(mods, requested, trail + [id], id);
  }

  lemma MeetingTheTrailIsACycle(mods: Mods, requested: set<Id>, trail: seq<Id>, id: Id)
    requires Chain(mods, trail) && Reached(mods, requested, trail, id) && id in trail
    ensures OnCycle(mods, id)
  {
    var i := IndexOf(trail, id);
    var loop := trail[i..] + [id];
    forall j | 0 <= j < |loop| - 1 ensures DependsOn(mods, loop[j], loop[j + 1]) {
      if j < |loop| - 2 {
        assert DependsOn(mods, trail[i + j], trail[i + j + 1]);
      }
    }
    assert Chain(mods, loop) && |loop| >= 2 && loop[0] == id && loop[|loop| - 1] == id;
  }

  /** What finding `id` already visited, or not, means. */
  lemma VisitedMeans(mods: Mods, requested: set<Id>, visit: map<Id, VisitState>,
                     trail: seq<Id>, finished: seq<Id>, id: Id)
    requires Searching(mods, requested, visit, trail, finished)
    requires Reached(mods, requested, trail, id)
    ensures Needed(mods, requested, id)
    ensures id in visit ==> id in mods
    ensures id in visit && visit[id] == Visiting ==> OnCycle(mods, id)
    ensures id in visit && visit[id] == Done ==> id in finished
  {
    ReachedIsNeeded(mods, requested, trail, id);
    if id in visit && visit[id] == Visiting {
      assert id in trail;
      MeetingTheTrailIsACycle(mods, requested, trail, id);
    }
  }

  lemma StartVisit(mods: Mods, requested: set<Id>, visit: map<Id, VisitState>,
                   trail: seq<Id>, finished: seq<Id>, id: Id)
    requires Searching(mods, requested, visit, trail, finished)
    requires Reached(mods, requested, trail, id) && id in mods && id !in visit && ApiCompatible(mods[id])
    ensures Searching(mods, requested, visit[id := Visiting], trail + [id], finished)
    ensures Needed(mods, requested, id)
  {
    ReachedIsNeeded(mods, requested, trail, id);
    assert id !in trail && id !in finished;
  }

  lemma FinishVisit(mods: Mods, requested: set<Id>, visit: map<Id, VisitState>,
                    trail: seq<Id>, finished: seq<Id>, id: Id)
    requires id in mods && Searching(mods, requested, visit, trail + [id], finished)
    requires forall k :: 0 <= k < |mods[id].dependencies| ==>
      SatisfiedBy(mods, mods[id].dependencies[k]) && mods[id].dependencies[k].id in finished
    ensures Searching(mods, requested, visit[id := Done], trail, finished + [id])
  {
    var deeper := trail + [id];
    assert id in deeper && id !in finished;
    assert forall x :: x in deeper <==> x in trail || x == id;
    forall i | 0 <= i < |trail| ensures trail[i] != id {
      assert deeper[i] != deeper[|trail|];
    }
    assert Distinct(trail) by {
      forall i, j | 0 <= i < j < |trail| ensures trail[i] != trail[j] { assert deeper[i] != deeper[j]; }
    }
    if trail != [] {
      assert deeper[0] == trail[0];
      forall i | 0 <= i < |trail| - 1 ensures DependsOn(mods, trail[i], trail[i + 1]) {
        assert DependsOn(mods, deeper[i], deeper[i + 1]);
      }
    }
    var after := finished + [id];
    forall i, d | 0 <= i < |after| && DependsOn(mods, after[i], d) ensures d in after[..i] {
      if i < |finished| {
        assert after[..i] == finished[..i] && DependsOn(mods, finished[i], d);
      } else {
        assert after[..i] == finished;
      }
    }
    assert Sound(mods, id) by { assert id in visit; }
    assert forall x :: x in after <==> x in finished || x == id;
  }

  class Resolver {
    const mods: Mods
    ghost const requested: set<Id>
    var visit: map<Id, VisitState>
    var enabled: set<Id>
    ghost var finished: seq<Id>

    constructor (mods: Mods, ghost requested: set<Id>)
      ensures this.mods == mods && this.requested == requested
      ensures Valid([]) && finished == []
    {
      this.mods := mods;
      this.requested := requested;
      visit, enabled, finished := map[], {}, [];
    }

    ghost predicate Valid(trail: seq<Id>)
      reads this
    {
      enabled == visit.Keys && Searching(mods, requested, visit, trail, finished)
    }

    /** A failure refutes Resolvable, whichever branch reports it. */
    method IncludeMod(id: Id, ghost trail: seq<Id>) returns (r: Result<()>)
      requires Valid(trail) && Reached(mods, requested, trail, id)
      modifies this
      ensures r.Success? ==> Valid(trail) && id in finished
      ensures r.Success? ==> old(finished) <= finished && old(visit.Keys) <= visit.Keys
      ensures r.Failure? ==> r == Failure(InvalidArgument) && !Resolvable(mods, requested)
      decreases mods.Keys - visit.Keys
    {
      hide Searching, Needed, OnCycle;
      VisitedMeans(mods, requested, visit, trail, finished, id);
      if id !in mods {
        return Failure(InvalidArgument);
      }
      if id in visit {
        if visit[id] == Visiting {
          return Failure(InvalidArgument);
        }
        return Success(());
      }
      if !ApiCompatible(mods[id]) {
        return Failure(InvalidArgument);
      }
      StartVisit(mods, requested, visit, trail, finished, id);
      visit := visit[id := Visiting];
      enabled := enabled + {id};
      ghost var deeper := trail + [id];

      var dependencies := mods[id].dependencies;
      for k := 0 to |dependencies|
        invariant Valid(deeper)
        invariant old(finished) <= finished && old(visit.Keys) + {id} <= visit.Keys
        invariant forall j :: 0 <= j < k ==> SatisfiedBy(mods, dependencies[j]) && dependencies[j].id in finished
      {
        var dependency := dependencies[k];
        if dependency.id !in mods {
          assert !SatisfiedBy(mods, mods[id].dependencies[k]);
          return Failure(InvalidArgument);
        }
        if !Semver.Matches(dependency.requirement, mods[dependency.id].version) {
          assert !SatisfiedBy(mods, mods[id].dependencies[k]);
          return Failure(InvalidArgument);
        }
        assert DependsOn(mods, id, mods[id].dependencies[k].id);
        ghost var before := finished;
        var nested := IncludeMod(dependency.id, deeper);
        if nested.Failure? {
          return nested;
        }
        assert forall x :: x in before ==> x in finished;
      }
      FinishVisit(mods, requested, visit, trail, finished, id);
      visit := visit[id := Done];
      finished := finished + [id];
      return Success(());
    }
  }

  // ----- Kahn's algorithm with an ordered ready set -----

  /** How many dependency entries name a member of `s`; repeated entries count each time. */
  ghost function CountIn(dependencies: seq<Dependency>, s: set<Id>): nat {
    if dependencies == [] then 0
    else CountIn(dependencies[..|dependencies| - 1], s) + if dependencies[|dependencies| - 1].id in s then 1 else 0
  }

  lemma {:induction false} CountSplits(dependencies: seq<Dependency>, s: set<Id>, id: Id)
    requires id in s
    ensures CountIn(dependencies, s) == CountIn(dependencies, s - {id}) + CountIn(dependencies, {id})
  {
    if dependencies != [] {
      CountSplits(dependencies[..|dependencies| - 1], s, id);
    }
  }

  lemma {:induction false} CountZero(dependencies: seq<Dependency>, s: set<Id>)
    ensures CountIn(dependencies, s) == 0 <==> forall k :: 0 <= k < |dependencies| ==> dependencies[k].id !in s
  {
    if dependencies != [] {
      var before := dependencies[..|dependencies| - 1];
      CountZero(before, s);
      if forall k :: 0 <= k < |dependencies| ==> dependencies[k].id !in s {
        assert forall k :: 0 <= k < |before| ==> before[k] == dependencies[k];
      } else {
        var k :| 0 <= k < |dependencies| && dependencies[k].id in s;
        assert k < |before| ==> before[k] == dependencies[k];
      }
    }
  }

  /** The mods that can be loaded next. */
  ghost function ReadyAfter(mods: Mods, s: set<Id>, loaded: seq<Id>): set<Id> {
    set x | x in s && x !in loaded && DependenciesIn(mods, s, x, loaded)
  }

  ghost function Unloaded(s: set<Id>, loaded: seq<Id>): set<Id> {
    set x | x in s && x !in loaded
  }

  ghost predicate Greedy(mods: Mods, s: set<Id>, order: seq<Id>) {
    forall i :: 0 <= i < |order| ==> IsLeast(order[i], ReadyAfter(mods, s, order[..i]))
  }

  lemma CountZeroIsReady(mods: Mods, s: set<Id>, loaded: seq<Id>, x: Id)
    requires x in mods
    ensures CountIn(mods[x].dependencies, Unloaded(s, loaded)) == 0 <==> DependenciesIn(mods, s, x, loaded)
  {
    CountZero(mods[x].dependencies, Unloaded(s, loaded));
    if DependenciesIn(mods, s, x, loaded) {
      forall k | 0 <= k < |mods[x].dependencies| ensures mods[x].dependencies[k].id !in Unloaded(s, loaded) {
        assert DependsOn(mods, x, mods[x].dependencies[k].id);
      }
    }
  }

  /** When nothing is ready and a dependencies-first listing of `s` exists, everything is loaded: the
      second cycle check can never fire. */
  lemma {:induction false} NothingReadyMeansAllLoaded(mods: Mods, s: set<Id>, finished: seq<Id>, loaded: seq<Id>, n: nat)
    requires n <= |finished| && DependenciesFirst(mods, finished)
    requires forall id :: id in finished <==> id in s
    requires ReadyAfter(mods, s, loaded) == {}
    ensures forall i :: 0 <= i < n ==> finished[i] in loaded
  {
    if n > 0 {
      NothingReadyMeansAllLoaded(mods, s, finished, loaded, n - 1);
      var x := finished[n - 1];
      forall d | d in s && DependsOn(mods, x, d) ensures d in loaded {
        assert d in finished[..n - 1];
      }
      assert x in finished && DependenciesIn(mods, s, x, loaded);
      assert x !in loaded ==> x in ReadyAfter(mods, s, loaded);
    }
  }

  lemma GreedyIsLoadOrder(mods: Mods, s: set<Id>, order: seq<Id>)
    requires Greedy(mods, s, order) && forall id :: id in s ==> id in order
    ensures IsLoadOrder(mods, s, order)
  {
    forall i | 0 <= i < |order|
      ensures order[i] in s && DependenciesIn(mods, s, order[i], order[..i]) && order[i] !in order[..i]
    {
      assert order[i] in ReadyAfter(mods, s, order[..i]);
    }
    forall i, j | 0 <= i < j < |order| ensures order[i] != order[j] {
      assert order[..j][i] == order[i];
    }
  }

  lemma PrefixExcludes(order: seq<Id>, i: nat)
    requires Distinct(order) && i < |order|
    ensures order[i] !in order[..i]
  {
  }

  /** Two listings of the same set share their length once one is a prefix of the other. */
  lemma SharedPrefixEndsTogether(mods: Mods, s: set<Id>, a: seq<Id>, b: seq<Id>, i: nat)
    requires IsLoadOrder(mods, s, a) && IsLoadOrder(mods, s, b)
    requires i <= |a| && i <= |b| && a[..i] == b[..i]
    ensures i == |a| ==> i == |b|
  {
    if i == |a| {
      assert a == a[..i];
      if i < |b| {
        assert b[i] in b;
        PrefixExcludes(b, i);
        assert false;
      }
    }
  }

  lemma {:induction false} GreedyPrecedes(mods: Mods, s: set<Id>, order: seq<Id>, other: seq<Id>, i: nat)
    requires Greedy(mods, s, order) && IsLoadOrder(mods, s, order) && IsLoadOrder(mods, s, other)
    requires i <= |order| && i <= |other| && order[..i] == other[..i]
    ensures Precedes(order, other)
    decreases |order| - i
  {
    SharedPrefixEndsTogether(mods, s, order, other, i);
    SharedPrefixEndsTogether(mods, s, other, order, i);
    if i == |order| {
      assert order == order[..i] && other == other[..i];
    } else if order[i] == other[i] {
      assert order[..i + 1] == order[..i] + [order[i]] && other[..i + 1] == other[..i] + [other[i]];
      GreedyPrecedes(mods, s, order, other, i + 1);
    } else {
      PrefixExcludes(other, i);
      assert other[i] in ReadyAfter(mods, s, order[..i]);
      assert DiffersFirstAt(order, other, i);
    }
  }

  lemma GreedyIsLeast(mods: Mods, s: set<Id>, order: seq<Id>)
    requires Greedy(mods, s, order) && forall id :: id in s ==> id in order
    ensures IsLeastLoadOrder(mods, s, order)
  {
    GreedyIsLoadOrder(mods, s, order);
    forall other | IsLoadOrder(mods, s, other) ensures Precedes(order, other) {
      GreedyPrecedes(mods, s, order, other, 0);
    }
  }

  type Dependents = map<Id, seq<Id>>

  function ListOf(dependents: Dependents, id: Id): seq<Id> {
    if id in dependents then dependents[id] else []
  }

  /** Every mod stands in the list of each dependency as often as it names it, and nowhere else. */
  ghost predicate ListsEntries(mods: Mods, enabled: set<Id>, listed: set<Id>, dependents: Dependents)
    requires enabled <= mods.Keys
  {
    forall d, x :: multiset(ListOf(dependents, d))[x] ==
      if x in enabled && x in listed && d in enabled then CountIn(mods[x].dependencies, {d}) else 0
  }

  method BuildGraph(mods: Mods, enabled: set<Id>) returns (indegree: map<Id, nat>, dependents: Dependents)
    requires enabled <= mods.Keys
    ensures indegree.Keys == enabled
    ensures forall x :: x in enabled ==> indegree[x] == CountIn(mods[x].dependencies, enabled)
    ensures ListsEntries(mods, enabled, enabled, dependents)
  {
    hide CountIn, IsLeast;
    indegree := map id | id in enabled :: 0;
    dependents := map[];
    var rest := enabled;
    ghost var listed := {};
    assert ListsEntries(mods, enabled, listed, dependents);
    hide ListsEntries;
    while rest != {}
      invariant rest <= enabled && indegree.Keys == enabled
      invariant forall x :: x in enabled ==> (x in rest <==> x !in listed)
      invariant forall x :: x in enabled ==> indegree[x] == if x in rest then 0 else CountIn(mods[x].dependencies, enabled)
      invariant ListsEntries(mods, enabled, listed, dependents)
      decreases |rest|
    {
      var id := Least(rest);
      indegree, dependents := AddEntries(mods, enabled, listed, id, indegree, dependents);
      rest, listed := rest - {id}, listed + {id};
    }
    AllListed(mods, enabled, listed, dependents);
  }

  lemma AllListed(mods: Mods, enabled: set<Id>, listed: set<Id>, dependents: Dependents)
    requires enabled <= mods.Keys && enabled <= listed
    requires ListsEntries(mods, enabled, listed, dependents)
    ensures ListsEntries(mods, enabled, enabled, dependents)
  {
    forall d, x ensures multiset(ListOf(dependents, d))[x] == if x in enabled && d in enabled then CountIn(mods[x].dependencies, {d}) else 0 {
      assert x in enabled ==> x in listed;
    }
  }

  /** The lists differ from `before` only in `id`, which each dependency holds as often as `entries` names it. */
  ghost predicate Appended(enabled: set<Id>, id: Id, entries: seq<Dependency>, before: Dependents, dependents: Dependents) {
    forall d, x :: multiset(ListOf(dependents, d))[x] ==
      multiset(ListOf(before, d))[x] + if x == id && d in enabled then CountIn(entries, {d}) else 0
  }

  lemma CountOneMore(entries: seq<Dependency>, entry: Dependency, s: set<Id>)
    ensures CountIn(entries + [entry], s) == CountIn(entries, s) + if entry.id in s then 1 else 0
  {
    assert (entries + [entry])[..|entries|] == entries;
  }

  lemma AppendEntry(enabled: set<Id>, id: Id, entries: seq<Dependency>, entry: Dependency, before: Dependents, dependents: Dependents)
    requires Appended(enabled, id, entries, before, dependents)
    ensures Appended(enabled, id, entries + [entry], before,
                     if entry.id in enabled then dependents[entry.id := ListOf(dependents, entry.id) + [id]] else dependents)
    ensures CountIn(entries + [entry], enabled) == CountIn(entries, enabled) + if entry.id in enabled then 1 else 0
  {
    hide CountIn;
    CountOneMore(entries, entry, enabled);
    var after := if entry.id in enabled then dependents[entry.id := ListOf(dependents, entry.id) + [id]] else dependents;
    forall d, x ensures multiset(ListOf(after, d))[x] ==
      multiset(ListOf(before, d))[x] + if x == id && d in enabled then CountIn(entries + [entry], {d}) else 0
    {
      CountOneMore(entries, entry, {d});
      ListGrows(dependents, entry.id, id, d, x);
    }
  }

  lemma ListGrows(dependents: Dependents, at: Id, id: Id, d: Id, x: Id)
    ensures multiset(ListOf(dependents[at := ListOf(dependents, at) + [id]], d))[x] ==
      multiset(ListOf(dependents, d))[x] + if d == at && x == id then 1 else 0
  {
  }

  /** The inner loop over the dependency entries of one mod. */
  method AddEntries(mods: Mods, enabled: set<Id>, ghost listed: set<Id>, id: Id,
                    before: map<Id, nat>, lists: Dependents)
    returns (indegree: map<Id, nat>, dependents: Dependents)
    requires enabled <= mods.Keys && id in enabled && id !in listed
    requires before.Keys == enabled && before[id] == 0
    requires ListsEntries(mods, enabled, listed, lists)
    ensures indegree == before[id := CountIn(mods[id].dependencies, enabled)]
    ensures ListsEntries(mods, enabled, listed + {id}, dependents)
  {
    hide CountIn, ListsEntries, Appended;
    indegree, dependents := before, lists;
    var dependencies := mods[id].dependencies;
    NothingAppended(enabled, id, lists);
    for k := 0 to |dependencies|
      invariant indegree == before[id := CountIn(dependencies[..k], enabled)]
      invariant Appended(enabled, id, dependencies[..k], lists, dependents)
    {
      AppendEntry(enabled, id, dependencies[..k], dependencies[k], lists, dependents);
      assert dependencies[..k + 1] == dependencies[..k] + [dependencies[k]];
      var dependency := dependencies[k].id;
      if dependency !in enabled {
        continue;
      }
      indegree := indegree[id := indegree[id] + 1];
      dependents := dependents[dependency := ListOf(dependents, dependency) + [id]];
    }
    assert dependencies[..|dependencies|] == dependencies;
    AppendedListsEntries(mods, enabled, listed, id, lists, dependents);
  }

  lemma NothingAppended(enabled: set<Id>, id: Id, lists: Dependents)
    ensures CountIn([], enabled) == 0
    ensures Appended(enabled, id, [], lists, lists)
  {
    assert forall d :: CountIn([], {d}) == 0;
  }

  lemma AppendedListsEntries(mods: Mods, enabled: set<Id>, listed: set<Id>, id: Id, lists: Dependents, dependents: Dependents)
    requires enabled <= mods.Keys && id in enabled && id !in listed
    requires ListsEntries(mods, enabled, listed, lists)
    requires Appended(enabled, id, mods[id].dependencies, lists, dependents)
    ensures ListsEntries(mods, enabled, listed + {id}, dependents)
  {
  }

  /** While the dependents of the last loaded mod are being released: those in `pending` have still to be
      decremented, once for each occurrence. */
  ghost predicate Releasing(mods: Mods, enabled: set<Id>, pending: seq<Id>, indegree: map<Id, nat>,
                            ready: set<Id>, order: seq<Id>)
    requires enabled <= mods.Keys
  {
    && indegree.Keys == enabled
    && (forall x :: x in pending ==> x in enabled)
    && (forall x :: x in enabled ==> indegree[x] == CountIn(mods[x].dependencies, Unloaded(enabled, order)) + multiset(pending)[x])
    && (forall x :: x in order ==> x in indegree && indegree[x] == 0)
    && (forall x :: x in ready <==> x in enabled && x !in order && x in indegree && indegree[x] == 0)
  }

  ghost predicate KahnState(mods: Mods, enabled: set<Id>, indegree: map<Id, nat>,
                            ready: set<Id>, order: seq<Id>)
    requires enabled <= mods.Keys
  {
    && Greedy(mods, enabled, order) && Distinct(order)
    && (forall x :: x in order ==> x in enabled)
    && Releasing(mods, enabled, [], indegree, ready, order)
  }

  lemma ReadyIsReadyAfter(mods: Mods, enabled: set<Id>, indegree: map<Id, nat>,
                          ready: set<Id>, order: seq<Id>)
    requires enabled <= mods.Keys && KahnState(mods, enabled, indegree, ready, order)
    ensures ready == ReadyAfter(mods, enabled, order)
  {
    forall x | x in enabled ensures x in ready <==> x in ReadyAfter(mods, enabled, order) {
      CountZeroIsReady(mods, enabled, order, x);
    }
  }

  lemma StartReleasing(mods: Mods, enabled: set<Id>, dependents: Dependents, id: Id, order: seq<Id>,
                       indegree: map<Id, nat>, ready: set<Id>)
    requires enabled <= mods.Keys && ListsEntries(mods, enabled, enabled, dependents)
    requires KahnState(mods, enabled, indegree, ready, order) && id in ready
    ensures Releasing(mods, enabled, ListOf(dependents, id), indegree, ready - {id}, order + [id])
  {
    var next, list := order + [id], ListOf(dependents, id);
    assert Unloaded(enabled, next) == Unloaded(enabled, order) - {id};
    forall x | x in enabled
      ensures indegree[x] == CountIn(mods[x].dependencies, Unloaded(enabled, next)) + multiset(list)[x]
    {
      CountSplits(mods[x].dependencies, Unloaded(enabled, order), id);
    }
    forall x | x in list ensures x in enabled {
      assert multiset(list)[x] > 0;
    }
  }

  lemma FinishReleasing(mods: Mods, enabled: set<Id>, before: map<Id, nat>, readyBefore: set<Id>, id: Id,
                        order: seq<Id>, indegree: map<Id, nat>, ready: set<Id>)
    requires enabled <= mods.Keys
    requires KahnState(mods, enabled, before, readyBefore, order) && id in readyBefore && IsLeast(id, readyBefore)
    requires Releasing(mods, enabled, [], indegree, ready, order + [id])
    ensures KahnState(mods, enabled, indegree, ready, order + [id])
  {
    assert id in enabled && id !in order;
    hide Greedy, CountIn, Unloaded, ReadyAfter, IsLeast, Distinct, Releasing;
    ReadyIsReadyAfter(mods, enabled, before, readyBefore, order);
    GreedyExtends(mods, enabled, order, id);
    DistinctExtends(order, id);
  }

  lemma DistinctExtends(order: seq<Id>, id: Id)
    requires Distinct(order) && id !in order
    ensures Distinct(order + [id])
  {
  }

  lemma ReleaseOne(mods: Mods, enabled: set<Id>, dependent: Id, pending: seq<Id>, order: seq<Id>,
                   indegree: map<Id, nat>, ready: set<Id>)
    requires enabled <= mods.Keys && Releasing(mods, enabled, [dependent] + pending, indegree, ready, order)
    ensures dependent in indegree && indegree[dependent] > 0
    ensures Releasing(mods, enabled, pending, indegree[dependent := indegree[dependent] - 1],
                      if indegree[dependent] == 1 then ready + {dependent} else ready, order)
  {
    hide CountIn, Unloaded;
    assert multiset([dependent] + pending) == multiset{dependent} + multiset(pending);
    assert dependent in [dependent] + pending;
    forall x | x in pending ensures x in enabled {
      assert x in [dependent] + pending;
    }
  }

  /** Decrements every listed dependent and inserts those that reach zero. */
  method Release(ghost mods: Mods, ghost enabled: set<Id>, list: seq<Id>, ghost order: seq<Id>,
                 before: map<Id, nat>, readyBefore: set<Id>)
    returns (indegree: map<Id, nat>, ready: set<Id>)
    requires enabled <= mods.Keys && Releasing(mods, enabled, list, before, readyBefore, order)
    ensures Releasing(mods, enabled, [], indegree, ready, order)
  {
    hide Releasing;
    indegree, ready := before, readyBefore;
    assert list[0..] == list;
    for j := 0 to |list|
      invariant Releasing(mods, enabled, list[j..], indegree, ready, order)
    {
      var dependent := list[j];
      assert list[j..] == [dependent] + list[j + 1..];
      ReleaseOne(mods, enabled, dependent, list[j + 1..], order, indegree, ready);
      if indegree[dependent] > 0 {
        indegree := indegree[dependent := indegree[dependent] - 1];
      }
      if indegree[dependent] == 0 {
        ready := ready + {dependent};
      }
    }
  }

  lemma GreedyExtends(mods: Mods, s: set<Id>, order: seq<Id>, id: Id)
    requires Greedy(mods, s, order) && IsLeast(id, ReadyAfter(mods, s, order))
    ensures Greedy(mods, s, order + [id])
  {
    var next := order + [id];
    forall i | 0 <= i < |next| ensures IsLeast(next[i], ReadyAfter(mods, s, next[..i])) {
      assert next[..i] == if i < |order| then order[..i] else order;
    }
  }

  method LoadOrder(mods: Mods, enabled: set<Id>, ghost finished: seq<Id>) returns (order: seq<Id>)
    requires enabled <= mods.Keys && DependenciesFirst(mods, finished)
    requires forall id :: id in finished <==> id in enabled
    ensures IsLeastLoadOrder(mods, enabled, order)
  {
    var indegree, dependents := BuildGraph(mods, enabled);
    order := [];
    assert Unloaded(enabled, []) == enabled;
    var ready := set x | x in enabled && indegree[x] == 0;
    while ready != {}
      invariant KahnState(mods, enabled, indegree, ready, order)
      decreases Unloaded(enabled, order)
    {
      var id := Least(ready);
      assert id in Unloaded(enabled, order) && id !in Unloaded(enabled, order + [id]);
      ghost var before, readyBefore := indegree, ready;
      StartReleasing(mods, enabled, dependents, id, order, indegree, ready);
      indegree, ready := Release(mods, enabled, ListOf(dependents, id), order + [id], indegree, ready - {id});
      FinishReleasing(mods, enabled, before, readyBefore, id, order, indegree, ready);
      order := order + [id];
    }
    ReadyIsReadyAfter(mods, enabled, indegree, ready, order);
    NothingReadyMeansAllLoaded(mods, enabled, finished, order, |finished|);
    forall id | id in enabled ensures id in order {
      assert finished[IndexOf(finished, id)] in order;
    }
    GreedyIsLeast(mods, enabled, order);
  }

  // ----- resolve_mod_set -----

  ghost function IdsOf(ids: seq<Id>): set<Id> {
    set id | id in ids
  }

  method IndexCatalog(catalog: seq<Manifest>) returns (r: Result<Mods>)
    ensures UniqueIds(catalog) ==> r == Success(ById(catalog))
    ensures !UniqueIds(catalog) ==> r == Failure(InvalidArgument)
  {
    var byId: Mods := map[];
    for i := 0 to |catalog|
      invariant byId == ById(catalog[..i])
      invariant UniqueIds(catalog[..i])
      invariant forall id :: id in byId <==> exists j :: 0 <= j < i && catalog[j].id == id
    {
      if catalog[i].id in byId {
        var j :| 0 <= j < i && catalog[j].id == catalog[i].id;
        return Failure(InvalidArgument);
      }
      assert catalog[..i + 1][..i] == catalog[..i];
      byId := byId[catalog[i].id := catalog[i]];
    }
    assert catalog[..|catalog|] == catalog;
    return Success(byId);
  }

  method CheckConflicts(mods: Mods, enabled: set<Id>) returns (ok: bool)
    requires enabled <= mods.Keys
    ensures ok <==> forall a, b :: a in enabled && b in enabled ==> !Conflicting(mods, a, b)
  {
    var rest := enabled;
    while rest != {}
      invariant rest <= enabled
      invariant forall a, b :: a in enabled - rest && b in enabled ==> !Conflicting(mods, a, b)
      decreases |rest|
    {
      var id := Least(rest);
      var conflicts := mods[id].conflicts;
      for k := 0 to |conflicts|
        invariant forall j :: 0 <= j < k ==> conflicts[j] !in enabled
      {
        if conflicts[k] in enabled {
          assert Conflicting(mods, id, conflicts[k]);
          return false;
        }
      }
      assert |rest - {id}| < |rest|;
      rest := rest - {id};
    }
    return true;
  }

  /** The resolver succeeds exactly on resolvable requests, and then returns the manifests of the
      dependency closure in its lexicographically least load order. */
  method ResolveModSet(catalog: seq<Manifest>, requestedIds: seq<Id>) returns (r: Result<seq<Manifest>>)
    ensures r.Success? <==> UniqueIds(catalog) && Resolvable(ById(catalog), IdsOf(requestedIds))
    ensures r.Failure? ==> r == Failure(InvalidArgument)
    ensures r.Success? ==> exists order, closure ::
      && IsClosure(ById(catalog), IdsOf(requestedIds), closure)
      && IsLeastLoadOrder(ById(catalog), closure, order)
      && |r.value| == |order|
      && forall i :: 0 <= i < |order| ==> order[i] in ById(catalog) && r.value[i] == ById(catalog)[order[i]]
  {
    hide Needed, OnCycle, DependenciesFirst, IsLeastLoadOrder, Searching, Sound;
    var indexed := IndexCatalog(catalog);
    if indexed.Failure? {
      return Failure(indexed.error);
    }
    var mods := indexed.value;
    ghost var requested := IdsOf(requestedIds);
    var resolver := new Resolver(mods, requested);
    for i := 0 to |requestedIds|
      invariant resolver.Valid([])
      invariant forall j :: 0 <= j < i ==> requestedIds[j] in resolver.finished
    {
      ghost var before := resolver.finished;
      var included := resolver.IncludeMod(requestedIds[i], []);
      if included.Failure? {
        return Failure(included.error);
      }
      assert forall x :: x in before ==> x in resolver.finished;
    }
    var enabled := resolver.enabled;
    ghost var finished := resolver.finished;
    SearchEndsInClosure(mods, requested, resolver.visit, finished);

    var compatible := CheckConflicts(mods, enabled);
    if !compatible {
      return Failure(InvalidArgument);
    }
    var order := LoadOrder(mods, enabled, finished);
    LoadOrderStaysInside(mods, enabled, order);
    return Success(seq(|order|, i requires 0 <= i < |order| => mods[order[i]]));
  }

  lemma LoadOrderStaysInside(mods: Mods, s: set<Id>, order: seq<Id>)
    requires IsLeastLoadOrder(mods, s, order)
    ensures forall i :: 0 <= i < |order| ==> order[i] in s
  {
    forall i | 0 <= i < |order| ensures order[i] in s {
      assert order[i] in order;
    }
  }

  lemma SearchEndsInClosure(mods: Mods, requested: set<Id>, visit: map<Id, VisitState>, finished: seq<Id>)
    requires Searching(mods, requested, visit, [], finished)
    requires forall id :: id in requested ==> id in finished
    ensures visit.Keys <= mods.Keys && DependenciesFirst(mods, finished)
    ensures forall id :: id in finished <==> id in visit
    ensures IsClosure(mods, requested, visit.Keys)
    ensures forall id :: id in visit ==> Sound(mods, id) && !OnCycle(mods, id)
  {
    forall id | id in visit ensures id in finished {
      assert id !in [] && visit[id] != Visiting;
    }
    FinishedSearchIsClosure(mods, requested, finished);
  }
}
