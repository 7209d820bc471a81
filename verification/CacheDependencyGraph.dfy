// The dependency model of the cache datasets: construction with cycle
// rejection, and refresh and clear orders.
// Source: connector/domain/cache_core/cache_dependency_graph.py
module CacheDependencyGraph {
  import opened Basics
  import opened PyText
  import opened Digraph
  import opened Kahn

  datatype Error =
    | EmptyDatasets
    | UnknownDependencies(edges: seq<(string, string)>)
    | DependencyCycle
    | UnsupportedDataset(name: string)

  // ----- reverse edges ----------------------------------------------------------

  method BuildDependents(datasets: seq<string>, depMap: Graph) returns (reverse: Graph)
    requires NoDup(datasets) && Elems(datasets) == depMap.Keys
    ensures Transposed(depMap, reverse)
  {
    reverse := map[];
    for i := 0 to |datasets|
      invariant EdgesAfter(depMap, reverse, datasets[..i])
    {
      var name := datasets[i];
      var deps := depMap[name];
      StartName(depMap, reverse, datasets, i);
      assert deps[..0] == [];
      for j := 0 to |deps|
        invariant EdgesSoFar(depMap, reverse, datasets[..i], name, deps[..j])
      {
        AddEdgeStep(depMap, reverse, datasets[..i], name, deps, j);
        reverse := AddEdge(reverse, deps[j], name);
      }
      assert deps[..|deps|] == deps == Succ(depMap, name);
      EndName(depMap, reverse, datasets, i);
    }
    assert datasets[..|datasets|] == datasets;
    AllScanned(depMap, reverse, datasets);
  }

  // ----- closures -------------------------------------------------------------

  ghost predicate ReachedFrom(g: Graph, seeds: set<string>, x: string) {
    exists s :: s in seeds && Reaches(g, s, x)
  }

  ghost predicate Within(g: Graph, scope: set<string>, seeds: set<string>) {
    forall x {:trigger ReachedFrom(g, seeds, x)} :: x in scope ==> ReachedFrom(g, seeds, x)
  }

  // Everything reachable from a seed, and nothing else.
  ghost predicate IsClosure(g: Graph, scope: set<string>, seeds: set<string>) {
    forall x {:trigger ReachedFrom(g, seeds, x)} :: x in scope <==> ReachedFrom(g, seeds, x)
  }

  ghost function Mentioned(g: Graph): set<string> {
    set n, d | n in g && d in g[n] :: d
  }

  ghost predicate ExitsInto(g: Graph, n: string, scope: set<string>) {
    forall d :: d in Succ(g, n) ==> d in scope
  }

  // Only queued nodes may still have successors outside the scope.
  ghost predicate OwedOnly(g: Graph, scope: set<string>, queue: seq<string>) {
    forall n {:trigger ExitsInto(g, n, scope)} :: n in scope && n !in queue ==> ExitsInto(g, n, scope)
  }

  lemma ClosedScopeIsClosure(g: Graph, scope: set<string>, seeds: set<string>)
    requires seeds <= scope && Within(g, scope, seeds) && OwedOnly(g, scope, [])
    ensures IsClosure(g, scope, seeds)
  {
    forall x | ReachedFrom(g, seeds, x) ensures x in scope {
      var s :| s in seeds && Reaches(g, s, x);
      var p :| WalkFrom(g, s, x, p);
      WalkStays(g, scope, p, |p| - 1);
    }
  }

  lemma {:induction false} WalkStays(g: Graph, scope: set<string>, p: seq<string>, k: nat)
    requires OwedOnly(g, scope, [])
    requires IsWalk(g, p) && p[0] in scope && k < |p|
    ensures p[k] in scope
  {
    if k == 0 {
    } else {
      WalkStays(g, scope, p, k - 1);
      assert p[(k - 1) + 1] in Succ(g, p[k - 1]);
      assert ExitsInto(g, p[k - 1], scope);
    }
  }

  lemma WithinStep(g: Graph, scope: set<string>, seeds: set<string>, n: string, d: string)
    requires Within(g, scope, seeds) && n in scope && d in Succ(g, n)
    ensures Within(g, scope + {d}, seeds)
  {
    assert ReachedFrom(g, seeds, n);
    var s :| s in seeds && Reaches(g, s, n);
    ReachesStep(g, s, n, d);
    assert ReachedFrom(g, seeds, d);
  }

  lemma OwedStep(g: Graph, scope: set<string>, queue: seq<string>, d: string)
    requires OwedOnly(g, scope, queue)
    ensures OwedOnly(g, scope + {d}, queue + [d])
  {
    forall n | n in scope + {d} && n !in queue + [d] ensures ExitsInto(g, n, scope + {d}) {
      assert d in queue + [d];
      assert forall q :: q in queue ==> q in queue + [d];
      assert ExitsInto(g, n, scope);
    }
  }

  // One popped node: its successors join the scope, the new ones join the queue.
  method Absorb(g: Graph, current: string, scope0: set<string>, queue0: seq<string>, ghost seeds: set<string>)
    returns (scope: set<string>, queue: seq<string>)
    requires Within(g, scope0, seeds) && current in scope0 && OwedOnly(g, scope0, [current] + queue0)
    ensures scope0 <= scope <= scope0 + Mentioned(g) && Within(g, scope, seeds)
    ensures OwedOnly(g, scope, queue)
    ensures forall q :: q in queue ==> q in queue0 || q in scope
    ensures |queue| - |queue0| == |scope| - |scope0|
  {
    scope, queue := scope0, queue0;
    var next := Succ(g, current);
    for i := 0 to |next|
      invariant scope0 <= scope <= scope0 + Mentioned(g) && Within(g, scope, seeds)
      invariant OwedOnly(g, scope, [current] + queue) && forall q :: q in queue ==> q in queue0 || q in scope
      invariant forall k :: 0 <= k < i ==> next[k] in scope
      invariant |queue| - |queue0| == |scope| - |scope0|
    {
      var dep := next[i];
      assert current in g && dep in g[current];
      if dep !in scope {
        WithinStep(g, scope, seeds, current, dep);
        OwedStep(g, scope, [current] + queue, dep);
        assert [current] + queue + [dep] == [current] + (queue + [dep]);
        scope := scope + {dep};
        queue := queue + [dep];
      }
    }
    assert ExitsInto(g, current, scope);
    OwedNoMore(g, scope, queue, current);
  }

  lemma OwedNoMore(g: Graph, scope: set<string>, queue: seq<string>, current: string)
    requires OwedOnly(g, scope, [current] + queue) && ExitsInto(g, current, scope)
    ensures OwedOnly(g, scope, queue)
  {
    forall n | n in scope && n !in queue ensures ExitsInto(g, n, scope) {
      if n != current { assert n !in [current] + queue; }
    }
  }

  ghost predicate WorkInv(g: Graph, scope: set<string>, queue: seq<string>, seeds: set<string>) {
    && seeds <= scope <= seeds + Mentioned(g) && Elems(queue) <= scope
    && Within(g, scope, seeds) && OwedOnly(g, scope, queue)
  }

  lemma WorkStart(g: Graph, seeds: set<string>)
    ensures WorkInv(g, seeds, SortedSet(seeds), seeds)
  {
    forall x | x in seeds ensures ReachedFrom(g, seeds, x) { ReachesRefl(g, x); }
  }

  lemma WorkSize(g: Graph, scope: set<string>, queue: seq<string>, seeds: set<string>)
    requires WorkInv(g, scope, queue, seeds)
    ensures |scope| <= |seeds + Mentioned(g)|
  {
    SubsetSize(scope, seeds + Mentioned(g));
  }

  method PopAndAbsorb(g: Graph, scope0: set<string>, queue0: seq<string>, ghost seeds: set<string>)
    returns (scope: set<string>, queue: seq<string>)
    requires WorkInv(g, scope0, queue0, seeds) && queue0 != []
    ensures WorkInv(g, scope, queue, seeds)
    ensures |queue| - |scope| == |queue0| - 1 - |scope0|
  {
    var current := queue0[0];
    assert [current] + queue0[1..] == queue0;
    assert current in Elems(queue0);
    scope, queue := Absorb(g, current, scope0, queue0[1..], seeds);
  }

  // The worklist shared by `_expand_dependencies` and `_expand_dependents`.
  method Expand(scope0: set<string>, g: Graph) returns (scope: set<string>)
    ensures IsClosure(g, scope, scope0)
  {
    scope := scope0;
    var queue := Sorted(scope0);
    WorkStart(g, scope0);
    while queue != []
      invariant WorkInv(g, scope, queue, scope0)
      decreases |scope0 + Mentioned(g)| - |scope| + |queue|
    {
      scope, queue := PopAndAbsorb(g, scope, queue, scope0);
      WorkSize(g, scope, queue, scope0);
    }
    ClosedScopeIsClosure(g, scope, scope0);
  }

  // ----- the graph and its orders ------------------------------------------------

  function FilterIn(s: seq<string>, scope: set<string>): (r: seq<string>)
    ensures forall x :: x in r <==> x in s && x in scope
  {
    if s == [] then [] else
      assert forall x :: x in s <==> x in s[..|s| - 1] || x == Last(s);
      FilterIn(s[..|s| - 1], scope) + if Last(s) in scope then [Last(s)] else []
  }

  // The items of `r` appear in the order they have in `s`.
  ghost predicate InOrderOf(r: seq<string>, s: seq<string>) {
    (forall x :: x in r ==> x in s) && forall i, j :: 0 <= i < j < |r| ==> Find(s, r[i]) < Find(s, r[j])
  }

  lemma {:induction false} FilterInOrder(s: seq<string>, scope: set<string>)
    requires NoDup(s)
    ensures InOrderOf(FilterIn(s, scope), s)
  {
    if s == [] {
    } else {
      var front := s[..|s| - 1];
      FilterInOrder(front, scope);
      var r := FilterIn(front, scope);
      forall x | x in front ensures Find(s, x) == Find(front, x) {
        assert s[Find(front, x)] == x && s[Find(s, x)] == x;
      }
      assert s[Find(s, Last(s))] == s[|s| - 1];
      forall i, j | 0 <= i < j < |FilterIn(s, scope)|
        ensures Find(s, FilterIn(s, scope)[i]) < Find(s, FilterIn(s, scope)[j]) {
        assert r[i] in r;
        if j < |r| { assert r[j] in r; }
      }
    }
  }

  lemma BeforeByPosition(r: seq<string>, s: seq<string>, i: nat, x: string)
    requires InOrderOf(r, s) && i < |r| && x in r
    ensures Find(s, x) < Find(s, r[i]) ==> x in r[..i]
    ensures Find(s, x) > Find(s, r[i]) ==> x in r[i + 1..]
  {
    var k :| 0 <= k < |r| && r[k] == x;
    if k < i { assert r[..i][k] == x; }
    if k > i { assert r[i + 1..][k - i - 1] == x; }
  }

  lemma LastByPosition(r: seq<string>, s: seq<string>, d: string)
    requires InOrderOf(r, s) && d in r
    requires forall x :: x in r ==> Find(s, x) <= Find(s, d)
    ensures NoDup(r) && r != [] && Last(r) == d
  {
    var k :| 0 <= k < |r| && r[k] == d;
    assert Last(r) in r;
  }

  lemma FindReversed(s: seq<string>, x: string)
    requires NoDup(s) && x in s
    ensures Find(Reversed(s), x) == |s| - 1 - Find(s, x)
  {
    var i := |s| - 1 - Find(Reversed(s), x);
    assert s[i] == x;
  }

  lemma ReversedNoDup(s: seq<string>)
    requires NoDup(s)
    ensures NoDup(Reversed(s))
  {
    var r := Reversed(s);
    forall i, j | 0 <= i < j < |r| ensures r[i] != r[j] {
      assert s[|s| - 1 - j] != s[|s| - 1 - i];
    }
  }

  lemma SuccessorEarlier(g: Graph, topo: seq<string>, n: string, d: string)
    requires IsTopological(g, topo) && n in topo && d in Succ(g, n)
    ensures d in topo && Find(topo, d) < Find(topo, n)
  {
    var i := Find(topo, n);
    assert d in topo[..i];
    var k :| 0 <= k < i && topo[k] == d;
    assert topo[Find(topo, d)] == topo[k];
  }

  // Each listed dataset stands before all listed datasets it depends on.
  ghost predicate DependentsFirst(g: Graph, order: seq<string>) {
    forall i, d :: 0 <= i < |order| && d in Succ(g, order[i]) && d in order ==> d in order[i + 1..]
  }

  datatype DependencyGraph = DependencyGraph(datasets: seq<string>, dependencies: Graph, dependents: Graph,
      topo: seq<string>)
  {
    ghost predicate Valid() {
      && datasets != [] && NoDup(datasets) && Elems(datasets) == dependencies.Keys && Closed(dependencies)
      && IsReverse(dependencies, dependents)
      && IsTopological(dependencies, topo)
    }

    method RefreshOrder(dataset: Option<string>, includeDependencies: bool) returns (r: Result<seq<string>, Error>)
      requires Valid()
      ensures dataset == None ==> r == Ok(topo)
      ensures dataset.Some? && dataset.value !in datasets ==> r == Err(UnsupportedDataset(dataset.value))
      ensures dataset.Some? && dataset.value in datasets && !includeDependencies ==> r == Ok([dataset.value])
      ensures dataset.Some? && dataset.value in datasets && includeDependencies ==>
        && r.Ok? && NoDup(r.value) && SuccessorsFirst(dependencies, r.value)
        && (forall m :: m in r.value <==> Reaches(dependencies, dataset.value, m))
        && r.value != [] && Last(r.value) == dataset.value
    {
      if dataset == None { return Ok(topo); }
      var d := dataset.value;
      if d !in dependencies { return Err(UnsupportedDataset(d)); }
      if !includeDependencies { return Ok([d]); }
      var scope := Expand({d}, dependencies);
      var order := FilterIn(topo, scope);
      RefreshScope(d, scope, order);
      return Ok(order);
    }

    lemma RefreshScope(d: string, scope: set<string>, order: seq<string>)
      requires Valid() && d in dependencies && IsClosure(dependencies, scope, {d}) && order == FilterIn(topo, scope)
      ensures NoDup(order) && SuccessorsFirst(dependencies, order)
      ensures forall m :: m in order <==> Reaches(dependencies, d, m)
      ensures order != [] && Last(order) == d
    {
      ReachesRefl(dependencies, d);
      FilterInOrder(topo, scope);
      assert forall m :: ReachedFrom(dependencies, {d}, m) <==> Reaches(dependencies, d, m);
      forall m | Reaches(dependencies, d, m) ensures m in topo && Find(topo, m) <= Find(topo, d) {
        ReachableNotLater(dependencies, topo, d, m);
      }
      LastByPosition(order, topo, d);
      forall i, m | 0 <= i < |order| && m in Succ(dependencies, order[i]) ensures m in order[..i] {
        assert order[i] in order;
        ReachesStep(dependencies, d, order[i], m);
        SuccessorEarlier(dependencies, topo, order[i], m);
        BeforeByPosition(order, topo, i, m);
      }
    }

    method ClearOrder(dataset: Option<string>, cascade: bool) returns (r: Result<seq<string>, Error>)
      requires Valid()
      ensures dataset == None ==> r == Ok(topo)
      ensures dataset.Some? && dataset.value !in datasets ==> r == Err(UnsupportedDataset(dataset.value))
      ensures dataset.Some? && dataset.value in datasets && !cascade ==> r == Ok([dataset.value])
      ensures dataset.Some? && dataset.value in datasets && cascade ==>
        && r.Ok? && NoDup(r.value) && DependentsFirst(dependencies, r.value)
        && (forall m :: m in r.value <==> Reaches(dependencies, m, dataset.value))
        && r.value != [] && Last(r.value) == dataset.value
    {
      if dataset == None { return Ok(topo); }
      var d := dataset.value;
      if d !in dependencies { return Err(UnsupportedDataset(d)); }
      if !cascade { return Ok([d]); }
      var scope := Expand({d}, dependents);
      var order := FilterIn(Reversed(topo), scope);
      ClearScope(d, scope, order);
      return Ok(order);
    }

    lemma ClearScope(d: string, scope: set<string>, order: seq<string>)
      requires Valid() && d in dependencies && IsClosure(dependents, scope, {d})
        && order == FilterIn(Reversed(topo), scope)
      ensures NoDup(order) && DependentsFirst(dependencies, order)
      ensures forall m :: m in order <==> Reaches(dependencies, m, d)
      ensures order != [] && Last(order) == d
    {
      var back := Reversed(topo);
      ReversedNoDup(topo);
      ReachesRefl(dependencies, d);
      FilterInOrder(back, scope);
      forall m ensures m in scope <==> Reaches(dependencies, m, d) {
        ReverseReaches(dependencies, dependents, m, d);
        assert ReachedFrom(dependents, {d}, m) <==> Reaches(dependents, d, m);
      }
      forall m | Reaches(dependencies, m, d) ensures m in topo && Find(back, m) <= Find(back, d) {
        ReachingIsNode(dependencies, m, d);
        ReachableNotLater(dependencies, topo, m, d);
        FindReversed(topo, m);
        FindReversed(topo, d);
      }
      LastByPosition(order, back, d);
      forall i, m | 0 <= i < |order| && m in Succ(dependencies, order[i]) && m in order ensures m in order[i + 1..] {
        assert order[i] in order;
        SuccessorEarlier(dependencies, topo, order[i], m);
        FindReversed(topo, m);
        FindReversed(topo, order[i]);
        BeforeByPosition(order, back, i, m);
      }
    }
  }

  lemma ReachingIsNode(g: Graph, m: string, d: string)
    requires d in g && Reaches(g, m, d)
    ensures m in g
  {
    var p :| WalkFrom(g, m, d, p);
    if |p| > 1 { assert p[0 + 1] in Succ(g, p[0]); }
  }

  function KnownDependencies(datasets: seq<string>, raw: Graph): (g: Graph)
    ensures g.Keys == Elems(datasets)
    ensures forall n :: n in datasets ==> NoDup(Succ(g, n)) && Elems(Succ(g, n)) == Elems(Succ(raw, n))
  {
    map n | n in datasets :: Dedup(Succ(raw, n))
  }

  method FindUnknown(datasets: seq<string>, depMap: Graph) returns (unknown: seq<(string, string)>)
    requires Elems(datasets) == depMap.Keys
    ensures forall n, d :: (n, d) in unknown <==> n in datasets && d in depMap[n] && d !in datasets
  {
    unknown := [];
    for i := 0 to |datasets|
      invariant forall n, d :: (n, d) in unknown <==> n in datasets[..i] && d in depMap[n] && d !in datasets
    {
      var name := datasets[i];
      var deps := depMap[name];
      for j := 0 to |deps|
        invariant forall n, d :: (n, d) in unknown <==>
          d !in datasets && ((n in datasets[..i] && d in depMap[n]) || (n == name && d in deps[..j]))
      {
        assert deps[..j + 1] == deps[..j] + [deps[j]];
        if deps[j] !in datasets {
          unknown := unknown + [(name, deps[j])];
        }
      }
      assert deps[..|deps|] == deps;
      assert datasets[..i + 1] == datasets[..i] + [name];
    }
    assert datasets[..|datasets|] == datasets;
  }

  // The constructor, with its three ways to raise `ValueError`.
  method Create(rawDatasets: seq<string>, rawDependencies: Graph) returns (r: Result<DependencyGraph, Error>)
    ensures r == Err(EmptyDatasets) <==> rawDatasets == []
    ensures r.Err? && r.error.UnknownDependencies? <==>
      rawDatasets != [] && exists n, d :: n in rawDatasets && d in Succ(rawDependencies, n) && d !in rawDatasets
    ensures r.Err? && r.error.UnknownDependencies? ==> forall n, d :: (n, d) in r.error.edges <==>
      n in rawDatasets && d in Succ(rawDependencies, n) && d !in rawDatasets
    ensures r.Ok? <==>
      rawDatasets != [] && Closed(KnownDependencies(Dedup(rawDatasets), rawDependencies))
      && !Cyclic(KnownDependencies(Dedup(rawDatasets), rawDependencies))
    ensures r.Err? ==> !r.error.UnsupportedDataset?
    ensures r.Ok? ==>
      r.value.Valid() && r.value.datasets == Dedup(rawDatasets)
      && r.value.dependencies == KnownDependencies(Dedup(rawDatasets), rawDependencies)
  {
    var datasets := Dedup(rawDatasets);
    assert rawDatasets != [] ==> rawDatasets[0] in datasets;
    if datasets == [] {
      return Err(EmptyDatasets);
    }
    var depMap := KnownDependencies(datasets, rawDependencies);
    assert forall n :: n in datasets ==> Elems(Succ(depMap, n)) == Elems(Succ(rawDependencies, n));
    var unknown := FindUnknown(datasets, depMap);
    if unknown != [] {
      var (n, d) := unknown[0];
      assert (n, d) in unknown;
      return Err(UnknownDependencies(unknown));
    }
    assert Closed(depMap) by {
      forall n, d | n in depMap && d in depMap[n] ensures d in depMap { assert (n, d) !in unknown; }
    }
    var dependents := BuildDependents(datasets, depMap);
    TransposedIsReverse(depMap, dependents);
    var topo := TopologicalOrder(datasets, depMap);
    if topo.None? {
      return Err(DependencyCycle);
    }
    return Ok(DependencyGraph(datasets, depMap, dependents, topo.value));
  }
}
