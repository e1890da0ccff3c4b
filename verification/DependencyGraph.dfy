/** The work-package dependency graph: the depth-first cycle search, and the closure checks on
    prerequisites and milestones. */
module DependencyGraph {
  import opened Identifiers

  /** A package name; only equality and the order of names matter. */
  type Name = Uuid
  type Graph = map<Name, set<Name>>

  /** The direct dependencies; a name without a row has none. */
  function Deps(g: Graph, node: Name): set<Name> {
    if node in g then g[node] else {}
  }

  function Nodes(g: Graph): set<Name> {
    g.Keys + set p, d | p in g && d in g[p] :: d
  }

  /** The package's own row names the other one. */
  predicate DependsOn(g: Graph, p: Name, d: Name) {
    p in g && d in g[p]
  }

  /** Each name depends on the next one. */
  predicate Walk(g: Graph, w: seq<Name>) {
    forall i | 0 < i < |w| :: DependsOn(g, w[i - 1], w[i])
  }

  ghost predicate ClosedWalk(g: Graph, w: seq<Name>) {
    |w| >= 2 && Walk(g, w) && w[0] == w[|w| - 1]
  }

  ghost predicate HasCycle(g: Graph) {
    exists w :: ClosedWalk(g, w)
  }

  /** A reported chain: a walk whose last name already occurs in it. */
  predicate CycleChain(g: Graph, chain: seq<Name>) {
    |chain| >= 2 && Walk(g, chain) && chain[|chain| - 1] in chain[..|chain| - 1]
  }

  lemma ChainIsCycle(g: Graph, chain: seq<Name>)
    requires CycleChain(g, chain)
    ensures HasCycle(g)
  {
    var last := |chain| - 1;
    var i :| 0 <= i < last && chain[..last][i] == chain[last];
    assert ClosedWalk(g, chain[i..]);
  }

  // --- Schedules --------------------------------------------------------------

  /** Every name comes after all of its dependencies. */
  ghost predicate Schedule(g: Graph, order: seq<Name>) {
    && (forall i, j | 0 <= i < j < |order| :: order[i] != order[j])
    && forall i | 0 <= i < |order| && order[i] in g :: forall d | d in g[order[i]] :: d in order[..i]
  }

  /** The place of a name in a schedule. */
  ghost function Place(order: seq<Name>, node: Name): (i: nat)
    requires node in order
    ensures i < |order| && order[i] == node
  {
    var i :| 0 <= i < |order| && order[i] == node;
    i
  }

  lemma DependenciesComeFirst(g: Graph, order: seq<Name>, node: Name, d: Name)
    requires Schedule(g, order) && node in order && d in Deps(g, node)
    ensures d in order && Place(order, d) < Place(order, node)
  {
    var i := Place(order, node);
    assert d in order[..i];
    var k :| 0 <= k < i && order[..i][k] == d;
    assert order[k] == d;
  }

  lemma {:induction false} WalksGoBack(g: Graph, order: seq<Name>, w: seq<Name>)
    requires Schedule(g, order) && Walk(g, w) && |w| > 0 && w[0] in order
    ensures w[|w| - 1] in order && Place(order, w[|w| - 1]) + |w| - 1 <= Place(order, w[0])
  {
    hide Schedule;
    if |w| > 1 {
      var n := |w| - 1;
      WalksGoBack(g, order, w[..n]);
      DependenciesComeFirst(g, order, w[n - 1], w[n]);
    }
  }

  /** A graph all of whose rows are scheduled has no cycle. */
  lemma ScheduleMeansNoCycle(g: Graph, order: seq<Name>)
    requires Schedule(g, order) && forall p | p in g :: p in order
    ensures !HasCycle(g)
  {
    hide Schedule;
    if w :| ClosedWalk(g, w) {
      assert w[1] in Deps(g, w[0]);
      WalksGoBack(g, order, w);
      assert false;
    }
  }

  lemma ScheduleExtends(g: Graph, order: seq<Name>, node: Name)
    requires Schedule(g, order) && node !in order && forall d | d in Deps(g, node) :: d in order
    ensures Schedule(g, order + [node])
  {
    var longer := order + [node];
    forall i | 0 <= i < |longer| ensures forall d | d in Deps(g, longer[i]) :: d in longer[..i] {
      if i < |order| {
        assert longer[..i] == order[..i];
      } else {
        assert longer[..i] == order;
      }
    }
  }

  lemma BackEdgeIsChain(g: Graph, chain: seq<Name>, node: Name)
    requires Walk(g, chain + [node]) && node in chain
    ensures CycleChain(g, chain + [node])
  {
    assert (chain + [node])[..|chain|] == chain;
  }

  lemma Bounded(g: Graph, visiting: set<Name>, visited: set<Name>, cycles: seq<seq<Name>>, finished: seq<Name>)
    requires Coherent(g, visiting, visited, cycles, finished)
    ensures visiting <= Nodes(g) && visiting !! visited
  {
  }

  lemma SmallerRest(all: set<Name>, visiting: set<Name>, node: Name)
    requires visiting <= all && node in all && node !in visiting
    ensures |all - (visiting + {node})| < |all - visiting|
  {
    assert all - visiting == all - (visiting + {node}) + {node};
  }

  // --- The search -------------------------------------------------------------

  datatype Problem = UnknownDependency(package: Name, missing: Name) | Cycle(chain: seq<Name>)

  /** What the search knows at any moment: reported chains are real, and as long as there are
      none, `finished` lists the visited names with dependencies first. */
  ghost predicate Coherent(g: Graph, visiting: set<Name>, visited: set<Name>, cycles: seq<seq<Name>>, finished: seq<Name>) {
    && visiting !! visited
    && visiting + visited <= Nodes(g)
    && (forall chain | chain in cycles :: CycleChain(g, chain))
    && (cycles == [] ==> Schedule(g, finished) && visited == set n | n in finished)
  }

  lemma BackEdgeKeeps(g: Graph, visiting: set<Name>, visited: set<Name>, cycles: seq<seq<Name>>, finished: seq<Name>, chain: seq<Name>, node: Name)
    requires Coherent(g, visiting, visited, cycles, finished)
    requires Walk(g, chain + [node]) && node in chain
    ensures Coherent(g, visiting, visited, cycles + [chain + [node]], finished)
  {
    hide Schedule, Nodes, Walk, CycleChain;
    BackEdgeIsChain(g, chain, node);
  }

  lemma EnteringKeeps(g: Graph, visiting: set<Name>, visited: set<Name>, cycles: seq<seq<Name>>, finished: seq<Name>, node: Name)
    requires Coherent(g, visiting, visited, cycles, finished)
    requires node in Nodes(g) && node !in visiting && node !in visited
    ensures Coherent(g, visiting + {node}, visited, cycles, finished)
  {
    hide Schedule, Nodes, CycleChain;
  }

  lemma LeavingKeeps(g: Graph, visiting: set<Name>, visited: set<Name>, cycles: seq<seq<Name>>, finished: seq<Name>, node: Name)
    requires Coherent(g, visiting + {node}, visited, cycles, finished) && node !in visiting
    requires cycles == [] ==> forall d | d in Deps(g, node) :: d in visited
    ensures Coherent(g, visiting, visited + {node}, cycles, finished + [node])
  {
    hide Schedule, Nodes, CycleChain;
    if cycles == [] {
      ScheduleExtends(g, finished, node);
    }
  }

  lemma SearchEnds(g: Graph, visited: set<Name>, cycles: seq<seq<Name>>, finished: seq<Name>)
    requires Coherent(g, {}, visited, cycles, finished) && g.Keys <= visited
    ensures cycles != [] <==> HasCycle(g)
    ensures cycles == [] ==> Schedule(g, finished) && g.Keys <= (set n | n in finished) <= Nodes(g)
    ensures forall chain | chain in cycles :: CycleChain(g, chain)
  {
    hide Schedule, HasCycle, CycleChain;
    if cycles == [] {
      ScheduleMeansNoCycle(g, finished);
    } else {
      ChainIsCycle(g, cycles[0]);
    }
  }

  class CycleSearch {
    const packages: Graph
    var visiting: set<Name>
    var visited: set<Name>
    var cycles: seq<seq<Name>>

    /** The names in the order in which their visits ended. */
    ghost var finished: seq<Name>

    ghost predicate Valid()
      reads this
    {
      Coherent(packages, visiting, visited, cycles, finished)
    }

    constructor (packages: Graph)
      ensures Valid() && this.packages == packages
      ensures visiting == {} && visited == {} && cycles == []
    {
      this.packages := packages;
      visiting, visited, cycles, finished := {}, {}, [], [];
    }

    /** `chain` is the path from the start of this search to `node`. */
    ghost predicate OnPath(chain: seq<Name>, node: Name)
      reads this
    {
      && visiting == (set n | n in chain)
      && Walk(packages, chain + [node])
      && node in Nodes(packages)
    }

    /** Depth first below `node`; an edge back into the path is reported with the whole path. */
    method Visit(node: Name, chain: seq<Name>)
      requires Valid() && OnPath(chain, node)
      modifies this
      ensures Valid() && visiting == old(visiting)
      ensures old(visited) <= visited && old(cycles) <= cycles
      ensures node in old(visiting) ==> cycles == old(cycles) + [chain + [node]]
      ensures node !in old(visiting) ==> node in visited
      decreases |Nodes(packages) - visiting|, 0
    {
      hide Coherent, Walk, Nodes;
      if node in visiting {
        BackEdgeKeeps(packages, visiting, visited, cycles, finished, chain, node);
        cycles := cycles + [chain + [node]];
        return;
      }
      if node in visited {
        return;
      }
      ghost var outside := visiting;
      Bounded(packages, visiting, visited, cycles, finished);
      SmallerRest(Nodes(packages), visiting, node);
      EnteringKeeps(packages, visiting, visited, cycles, finished, node);
      visiting := visiting + {node};
      assert visiting == set n | n in chain + [node];
      VisitAll(Ascending(Deps(packages, node)), chain, node);
      visiting := visiting - {node};
      assert visiting == outside && visiting + {node} == outside + {node};
      LeavingKeeps(packages, visiting, visited, cycles, finished, node);
      visited := visited + {node};
      finished := finished + [node];
    }

    /** The loop over the dependencies of `node`. */
    method VisitAll(below: seq<Name>, chain: seq<Name>, node: Name)
      requires Valid() && visiting == (set n | n in chain + [node]) && Walk(packages, chain + [node])
      requires forall d :: d in below <==> d in Deps(packages, node)
      modifies this
      ensures Valid() && visiting == old(visiting)
      ensures old(visited) <= visited && old(cycles) <= cycles
      ensures cycles == [] ==> forall d | d in Deps(packages, node) :: d in visited
      decreases |Nodes(packages) - visiting|, 1
    {
      hide Coherent, Walk, Nodes;
      for i := 0 to |below|
        invariant Valid() && visiting == old(visiting)
        invariant old(visited) <= visited && old(cycles) <= cycles
        invariant cycles == [] ==> forall k | 0 <= k < i :: below[k] in visited
      {
        PathExtends(packages, chain, node, below[i]);
        Visit(below[i], chain + [node]);
      }
    }

    /** Every package is visited, in the order of the names. */
    method Search()
      requires Valid() && visiting == {} && visited == {} && cycles == []
      modifies this
      ensures Valid() && visiting == {} && packages.Keys <= visited
      ensures forall chain | chain in cycles :: CycleChain(packages, chain)
      ensures cycles != [] <==> HasCycle(packages)
      ensures cycles == [] ==> Schedule(packages, finished) && packages.Keys <= (set n | n in finished) <= Nodes(packages)
    {
      hide Coherent, Schedule, HasCycle, Walk, Nodes;
      var names := Ascending(packages.Keys);
      for i := 0 to |names|
        invariant Valid() && visiting == {}
        invariant forall k | 0 <= k < i :: names[k] in visited
      {
        StartsPath(packages, names[i]);
        Visit(names[i], []);
      }
      forall p | p in packages ensures p in visited {
        assert p in names;
      }
      SearchEnds(packages, visited, cycles, finished);
    }
  }

  lemma StartsPath(g: Graph, node: Name)
    requires node in g
    ensures Walk(g, [] + [node]) && node in Nodes(g)
  {
  }

  lemma PathExtends(g: Graph, chain: seq<Name>, node: Name, next: Name)
    requires Walk(g, chain + [node]) && next in Deps(g, node)
    ensures Walk(g, chain + [node] + [next])
    ensures next in Nodes(g)
    ensures (set n | n in chain + [node]) == (set n | n in chain) + {node}
  {
    var w := chain + [node] + [next];
    forall i | 0 < i < |w| ensures w[i] in Deps(g, w[i - 1]) {
      if i < |chain| + 1 {
        assert w[i] == (chain + [node])[i] && w[i - 1] == (chain + [node])[i - 1];
      }
    }
  }

  method FindUnknown(packages: Graph) returns (problems: set<Problem>)
    ensures forall p, d :: UnknownDependency(p, d) in problems <==> p in packages && d in packages[p] && d !in packages
    ensures forall q | q in problems :: q.UnknownDependency?
  {
    var rest := packages.Keys;
    problems := {};
    while rest != {}
      invariant rest <= packages.Keys
      invariant forall p, d :: UnknownDependency(p, d) in problems <==> p in packages && p !in rest && d in packages[p] && d !in packages
      invariant forall q | q in problems :: q.UnknownDependency?
      decreases |rest|
    {
      var p :| p in rest;
      problems := problems + set d | d in packages[p] - packages.Keys :: UnknownDependency(p, d);
      rest := rest - {p};
    }
  }

  /** Everything wrong with the dependencies: names without a row, and cycles. When nothing is,
      the packages can be done one after the other, dependencies first. */
  method CheckDependencies(packages: Graph) returns (problems: set<Problem>)
    ensures forall p, d :: UnknownDependency(p, d) in problems <==> p in packages && d in packages[p] && d !in packages
    ensures forall chain | Cycle(chain) in problems :: CycleChain(packages, chain)
    ensures (exists chain :: Cycle(chain) in problems) <==> HasCycle(packages)
    ensures problems == {} ==> exists order :: Schedule(packages, order) && (set n | n in order) == packages.Keys
  {
    hide Schedule, CycleChain, HasCycle, Nodes;
    var unknown := FindUnknown(packages);
    var search := new CycleSearch(packages);
    search.Search();
    problems := unknown + set chain | chain in search.cycles :: Cycle(chain);
    if search.cycles != [] {
      assert Cycle(search.cycles[0]) in problems;
    } else if problems == {} {
      AllKnown(packages, unknown);
    }
  }

  lemma AllKnown(g: Graph, unknown: set<Problem>)
    requires forall p, d :: UnknownDependency(p, d) in unknown <==> p in g && d in g[p] && d !in g
    requires unknown == {}
    ensures Nodes(g) == g.Keys
  {
    forall p, d | p in g && d in g[p] ensures d in g {
      assert UnknownDependency(p, d) !in unknown;
    }
  }

  // --- Closure over dependencies ----------------------------------------------

  function Missing(g: Graph, node: Name, accepted: set<Name>): set<Name> {
    Deps(g, node) - accepted
  }

  /** The check the guard makes: direct dependencies only. */
  ghost predicate DirectlyClosed(g: Graph, accepted: set<Name>) {
    forall p | p in accepted :: Missing(g, p, accepted) == {}
  }

  ghost predicate ReachedFrom(g: Graph, accepted: set<Name>, w: seq<Name>) {
    |w| > 0 && Walk(g, w) && w[0] in accepted
  }

  /** The guarantee it stands for: every dependency at any distance. */
  ghost predicate TransitivelyClosed(g: Graph, accepted: set<Name>) {
    forall w | ReachedFrom(g, accepted, w) :: w[|w| - 1] in accepted
  }

  lemma {:induction false} ReachedStaysIn(g: Graph, accepted: set<Name>, w: seq<Name>)
    requires DirectlyClosed(g, accepted) && ReachedFrom(g, accepted, w)
    ensures w[|w| - 1] in accepted
  {
    if |w| > 1 {
      var n := |w| - 1;
      ReachedStaysIn(g, accepted, w[..n]);
      assert w[n] !in Missing(g, w[n - 1], accepted);
    }
  }

  /** The direct check is enough, and not too much: it holds exactly when the set is closed over
      all transitive dependencies. */
  lemma DirectCheckIsExact(g: Graph, accepted: set<Name>)
    ensures DirectlyClosed(g, accepted) <==> TransitivelyClosed(g, accepted)
  {
    if DirectlyClosed(g, accepted) {
      forall w | ReachedFrom(g, accepted, w) ensures w[|w| - 1] in accepted {
        ReachedStaysIn(g, accepted, w);
      }
    }
    if TransitivelyClosed(g, accepted) {
      forall p | p in accepted ensures Missing(g, p, accepted) == {} {
        forall d | d in Deps(g, p) ensures d in accepted {
          assert ReachedFrom(g, accepted, [p, d]);
        }
      }
    }
  }

  datatype Status = READY | IN_PROGRESS | COMPLETE | VERIFIED | OTHER

  predicate Done(status: Status) {
    status == COMPLETE || status == VERIFIED
  }

  /** The package is finished: COMPLETE or VERIFIED. */
  predicate Finished(statuses: map<Name, Status>, p: Name) {
    p in statuses && (statuses[p] == COMPLETE || statuses[p] == VERIFIED)
  }

  function DonePackages(statuses: map<Name, Status>): set<Name> {
    set p | p in statuses && Done(statuses[p])
  }

  lemma MissingMeans(g: Graph, p: Name, statuses: map<Name, Status>)
    ensures var missing := Missing(g, p, DonePackages(statuses));
            && (missing != {} <==> p in g && exists d :: d in g[p] && !Finished(statuses, d))
            && forall d :: d in missing <==> p in g && d in g[p] && !Finished(statuses, d)
  {
    if p in g && exists d :: d in g[p] && !Finished(statuses, d) {
      var d :| d in g[p] && !Finished(statuses, d);
      assert d in Missing(g, p, DonePackages(statuses));
    }
  }

  /** The answer of the check, package by package. */
  ghost predicate Incomplete(g: Graph, statuses: map<Name, Status>, incomplete: map<Name, set<Name>>) {
    && (forall p :: p in incomplete <==> Finished(statuses, p) && p in g && exists d :: d in g[p] && !Finished(statuses, d))
    && forall p, d | p in incomplete && p in g :: d in incomplete[p] <==> d in g[p] && !Finished(statuses, d)
  }

  lemma IncompleteMeans(g: Graph, statuses: map<Name, Status>, incomplete: map<Name, set<Name>>)
    requires forall p :: p in incomplete <==> p in DonePackages(statuses) && Missing(g, p, DonePackages(statuses)) != {}
    requires forall p | p in incomplete :: incomplete[p] == Missing(g, p, DonePackages(statuses))
    ensures Incomplete(g, statuses, incomplete)
  {
    hide Missing, DonePackages, Finished;
    forall p ensures p in incomplete <==> Finished(statuses, p) && p in g && exists d :: d in g[p] && !Finished(statuses, d) {
      MissingMeans(g, p, statuses);
      FinishedAreDone(statuses, p);
    }
    forall p, d | p in incomplete && p in g ensures d in incomplete[p] <==> d in g[p] && !Finished(statuses, d) {
      MissingMeans(g, p, statuses);
    }
  }

  lemma FinishedAreDone(statuses: map<Name, Status>, p: Name)
    ensures p in DonePackages(statuses) <==> Finished(statuses, p)
  {
  }

  lemma DoneAreFinished(statuses: map<Name, Status>)
    ensures DonePackages(statuses) == set p | p in statuses && Finished(statuses, p)
  {
  }

  /** Incomplete prerequisites of every finished package. */
  method CheckPrerequisites(packages: Graph, statuses: map<Name, Status>) returns (incomplete: map<Name, set<Name>>)
    ensures Incomplete(packages, statuses, incomplete)
    ensures incomplete == map[] <==> TransitivelyClosed(packages, set p | p in statuses && Finished(statuses, p))
  {
    var finished := DonePackages(statuses);
    var rest := statuses.Keys;
    incomplete := map[];
    while rest != {}
      invariant rest <= statuses.Keys
      invariant forall p :: p in incomplete <==> p in finished && p !in rest && Missing(packages, p, finished) != {}
      invariant forall p | p in incomplete :: incomplete[p] == Missing(packages, p, finished)
      decreases |rest|
    {
      var p :| p in rest;
      if Done(statuses[p]) {
        var missing := Missing(packages, p, finished);
        if missing != {} {
          incomplete := incomplete[p := missing];
        }
      }
      rest := rest - {p};
    }
    hide Incomplete;
    IncompleteMeans(packages, statuses, incomplete);
    DoneAreFinished(statuses);
    DirectCheckIsExact(packages, finished);
    assert incomplete == map[] <==> DirectlyClosed(packages, finished) by {
      if incomplete != map[] {
        var p :| p in incomplete;
        assert Missing(packages, p, finished) != {};
      }
    }
  }

  /** What a milestone's package set leaves out. */
  method CheckMilestone(packages: Graph, defined: seq<Name>) returns (omissions: seq<set<Name>>)
    ensures forall m :: m in omissions <==> m != {} && exists p | p in defined :: p in packages && m == set d | d in packages[p] && d !in defined
    ensures omissions == [] <==> TransitivelyClosed(packages, set n | n in defined)
  {
    var chosen := set n | n in defined;
    omissions := [];
    for i := 0 to |defined|
      invariant forall m :: m in omissions <==> m != {} && exists p | p in defined[..i] :: m == Missing(packages, p, chosen)
    {
      var missing := Missing(packages, defined[i], chosen);
      assert defined[..i + 1] == defined[..i] + [defined[i]];
      if missing != {} {
        omissions := omissions + [missing];
      }
    }
    assert defined[..|defined|] == defined;
    forall p | p in packages ensures Missing(packages, p, chosen) == set d | d in packages[p] && d !in defined {
    }
    DirectCheckIsExact(packages, chosen);
    assert omissions == [] <==> DirectlyClosed(packages, chosen) by {
      if omissions != [] {
        assert omissions[0] in omissions;
      } else {
        forall p | p in chosen ensures Missing(packages, p, chosen) == {} {
          assert p in defined;
          assert Missing(packages, p, chosen) !in omissions;
        }
      }
    }
  }
}
