// Kahn's algorithm on a map of dependency lists: it succeeds exactly on acyclic
// maps, and a short result exposes a cycle.
// Source: connector/domain/cache_core/cache_dependency_graph.py
module Kahn {
  import opened Basics
  import opened Digraph

  ghost function Count(s: seq<string>, x: string): nat {
    multiset(s)[x]
  }

  lemma CountAppend(s: seq<string>, y: string)
    ensures forall x :: Count(s + [y], x) == Count(s, x) + if x == y then 1 else 0
  {}

  // How many entries of a dependency list are still outside `done`.
  ghost function Pending(deps: seq<string>, done: set<string>): nat {
    if deps == [] then 0
    else Pending(deps[..|deps| - 1], done) + if Last(deps) in done then 0 else 1
  }

  lemma {:induction false} PendingStep(deps: seq<string>, done: set<string>, x: string)
    requires x !in done
    ensures Pending(deps, done) == Pending(deps, done + {x}) + Count(deps, x)
  {
    if deps == [] {
    } else {
      var front := deps[..|deps| - 1];
      PendingStep(front, done, x);
      assert deps == front + [Last(deps)];
      CountAppend(front, Last(deps));
    }
  }

  lemma {:induction false} PendingNone(deps: seq<string>, done: set<string>)
    ensures Pending(deps, done) == 0 <==> forall d :: d in deps ==> d in done
  {
    if deps == [] {
    } else {
      PendingNone(deps[..|deps| - 1], done);
      assert deps == deps[..|deps| - 1] + [Last(deps)];
    }
  }

  lemma {:induction false} PendingAtStart(deps: seq<string>)
    ensures Pending(deps, {}) == |deps|
  {
    if deps == [] {
    } else {
      PendingAtStart(deps[..|deps| - 1]);
    }
  }

  // `edges` lists, under each dependency, the datasets that name it.
  ghost predicate Transposed(g: Graph, edges: Graph) {
    forall d, n :: Count(Succ(edges, d), n) == Count(Succ(g, n), d)
  }

  lemma TransposedIsReverse(g: Graph, edges: Graph)
    requires Transposed(g, edges)
    ensures IsReverse(g, edges)
  {
    forall a, b ensures a in Succ(edges, b) <==> b in Succ(g, a) {
      assert Count(Succ(edges, b), a) == Count(Succ(g, a), b);
    }
  }

  // How often edge list `d` must name `n` once the datasets `names` are
  // scanned and, of `current`, the dependencies `seen`.
  ghost function Scanned(g: Graph, names: seq<string>, current: string, seen: seq<string>, d: string, n: string): nat {
    if n == current then Count(seen, d) else if n in names then Count(Succ(g, n), d) else 0
  }

  ghost predicate EdgesSoFar(g: Graph, edges: Graph, names: seq<string>, current: string, seen: seq<string>) {
    forall d, n :: Count(Succ(edges, d), n) == Scanned(g, names, current, seen, d, n)
  }

  ghost predicate EdgesAfter(g: Graph, edges: Graph, names: seq<string>) {
    forall d, n :: Count(Succ(edges, d), n) == if n in names then Count(Succ(g, n), d) else 0
  }

  function AddEdge(edges: Graph, dep: string, name: string): Graph {
    edges[dep := Succ(edges, dep) + [name]]
  }

  lemma AddEdgeStep(g: Graph, edges: Graph, names: seq<string>, current: string, deps: seq<string>, j: nat)
    requires j < |deps| && EdgesSoFar(g, edges, names, current, deps[..j])
    ensures EdgesSoFar(g, AddEdge(edges, deps[j], current), names, current, deps[..j + 1])
  {
    var after := AddEdge(edges, deps[j], current);
    CountAppend(deps[..j], deps[j]);
    CountAppend(Succ(edges, deps[j]), current);
    assert deps[..j + 1] == deps[..j] + [deps[j]];
    forall d, n ensures Count(Succ(after, d), n) == Scanned(g, names, current, deps[..j + 1], d, n) {
      assert Count(Succ(edges, d), n) == Scanned(g, names, current, deps[..j], d, n);
      if d == deps[j] { assert Succ(after, d) == Succ(edges, d) + [current]; }
    }
  }

  lemma StartName(g: Graph, edges: Graph, datasets: seq<string>, i: nat)
    requires NoDup(datasets) && i < |datasets| && EdgesAfter(g, edges, datasets[..i])
    ensures EdgesSoFar(g, edges, datasets[..i], datasets[i], [])
  {
    forall d, n ensures Count(Succ(edges, d), n) == Scanned(g, datasets[..i], datasets[i], [], d, n) {
      assert Count(Succ(edges, d), n) == if n in datasets[..i] then Count(Succ(g, n), d) else 0;
    }
  }

  lemma EndName(g: Graph, edges: Graph, datasets: seq<string>, i: nat)
    requires i < |datasets| && EdgesSoFar(g, edges, datasets[..i], datasets[i], Succ(g, datasets[i]))
    ensures EdgesAfter(g, edges, datasets[..i + 1])
  {
    assert datasets[..i + 1] == datasets[..i] + [datasets[i]];
    forall d, n ensures Count(Succ(edges, d), n) == if n in datasets[..i + 1] then Count(Succ(g, n), d) else 0 {
      assert Count(Succ(edges, d), n) == Scanned(g, datasets[..i], datasets[i], Succ(g, datasets[i]), d, n);
    }
  }

  lemma AllScanned(g: Graph, edges: Graph, datasets: seq<string>)
    requires Elems(datasets) == g.Keys && EdgesAfter(g, edges, datasets)
    ensures Transposed(g, edges)
  {
    forall d, n ensures Count(Succ(edges, d), n) == Count(Succ(g, n), d) {
      assert Count(Succ(edges, d), n) == if n in datasets then Count(Succ(g, n), d) else 0;
    }
  }

  // Both edge lists and in-degrees, scanned as `_topological_order` does.
  method IndexEdges(datasets: seq<string>, depMap: Graph) returns (indegree: map<string, int>, edges: Graph)
    requires NoDup(datasets) && Elems(datasets) == depMap.Keys
    ensures Transposed(depMap, edges)
    ensures indegree.Keys == depMap.Keys && forall n :: n in depMap ==> indegree[n] == |depMap[n]|
  {
    indegree := map n | n in datasets :: 0;
    edges := map[];
    for i := 0 to |datasets|
      invariant EdgesAfter(depMap, edges, datasets[..i])
      invariant indegree.Keys == depMap.Keys
      invariant forall n :: n in depMap ==> indegree[n] == if n in datasets[..i] then |depMap[n]| else 0
    {
      var name := datasets[i];
      var deps := depMap[name];
      StartName(depMap, edges, datasets, i);
      assert deps[..0] == [];
      assert name !in datasets[..i];
      for j := 0 to |deps|
        invariant EdgesSoFar(depMap, edges, datasets[..i], name, deps[..j])
        invariant indegree.Keys == depMap.Keys
        invariant forall n :: n in depMap ==>
          indegree[n] == if n == name then j else if n in datasets[..i] then |depMap[n]| else 0
      {
        AddEdgeStep(depMap, edges, datasets[..i], name, deps, j);
        edges := AddEdge(edges, deps[j], name);
        indegree := indegree[name := indegree[name] + 1];
      }
      assert deps[..|deps|] == deps == Succ(depMap, name);
      EndName(depMap, edges, datasets, i);
      assert datasets[..i + 1] == datasets[..i] + [name];
    }
    assert datasets[..|datasets|] == datasets;
    AllScanned(depMap, edges, datasets);
  }

  // ----- Kahn's algorithm ---------------------------------------------------

  // Between two pops: an in-degree counts the dependencies not yet ordered, and
  // exactly the datasets with none left are ordered or queued. `owed` is the
  // part of the popped dataset's edge list still to be walked.
  ghost predicate SweepInv(g: Graph, indegree: map<string, int>, queue: seq<string>, ordered: seq<string>,
      owed: seq<string>)
  {
    && indegree.Keys == g.Keys
    && NoDup(ordered + queue) && Elems(ordered + queue) <= g.Keys && Elems(owed) <= g.Keys
    && SuccessorsFirst(g, ordered)
    && (forall n :: n in g ==> indegree[n] == Pending(Succ(g, n), Elems(ordered)) + Count(owed, n))
    && (forall n :: n in g ==> (indegree[n] == 0 <==> n in ordered + queue))
  }

  lemma SweepStart(g: Graph, indegree: map<string, int>, datasets: seq<string>, queue: seq<string>)
    requires Elems(datasets) == g.Keys && indegree.Keys == g.Keys && NoDup(queue)
    requires forall n :: n in g ==> indegree[n] == |g[n]|
    requires forall n :: n in queue <==> n in datasets && indegree[n] == 0
    ensures SweepInv(g, indegree, queue, [], [])
  {
    assert [] + queue == queue;
    assert Elems<string>([]) == {};
    forall n | n in g ensures indegree[n] == Pending(Succ(g, n), Elems([])) + Count([], n) {
      PendingAtStart(g[n]);
    }
  }

  lemma PopStep(g: Graph, edges: Graph, indegree: map<string, int>, queue: seq<string>, ordered: seq<string>)
    requires SweepInv(g, indegree, queue, ordered, []) && queue != [] && Transposed(g, edges)
    ensures SweepInv(g, indegree, queue[1..], ordered + [queue[0]], Succ(edges, queue[0]))
  {
    var cur := queue[0];
    var done := Elems(ordered);
    assert (ordered + [cur]) + queue[1..] == ordered + queue;
    assert (ordered + queue)[|ordered|] == cur;
    assert NoDup(ordered + [cur]) by {
      assert ordered + [cur] == (ordered + queue)[..|ordered| + 1];
    }
    assert cur !in ordered by {
      assert forall k :: 0 <= k < |ordered| ==> (ordered + queue)[k] == ordered[k];
    }
    assert NoDup(ordered) by { assert ordered == (ordered + queue)[..|ordered|]; }
    assert Elems(ordered + [cur]) == done + {cur};
    PendingNone(Succ(g, cur), done);
    assert cur in ordered + queue;
    ExtendOrder(g, ordered, cur);
    forall n | n in g ensures indegree[n] == Pending(Succ(g, n), done + {cur}) + Count(Succ(edges, cur), n) {
      PendingStep(Succ(g, n), done, cur);
      assert Count(Succ(edges, cur), n) == Count(Succ(g, n), cur);
    }
    forall n | n in Succ(edges, cur) ensures n in g {
      assert Count(Succ(edges, cur), n) == Count(Succ(g, n), cur);
    }
  }

  lemma RelaxStep(g: Graph, indegree: map<string, int>, queue: seq<string>, ordered: seq<string>,
      owed: seq<string>, rest: seq<string>, nxt: string)
    requires SweepInv(g, indegree, queue, ordered, owed) && owed == [nxt] + rest
    ensures nxt in indegree
    ensures SweepInv(g, indegree[nxt := indegree[nxt] - 1],
                     if indegree[nxt] - 1 == 0 then queue + [nxt] else queue, ordered, rest)
  {
    assert nxt in owed;
    assert forall n :: Count(owed, n) == Count(rest, n) + if n == nxt then 1 else 0;
    assert nxt !in ordered + queue;
    if indegree[nxt] - 1 == 0 {
      assert ordered + (queue + [nxt]) == (ordered + queue) + [nxt];
      NoDupConcat(ordered + queue, [nxt]);
    }
  }

  lemma SweepEnd(g: Graph, indegree: map<string, int>, ordered: seq<string>)
    requires SweepInv(g, indegree, [], ordered, []) && Closed(g)
    ensures Traps(g, g.Keys - Elems(ordered)) && NoDup(ordered)
  {
    assert ordered + [] == ordered;
    forall n | n in g.Keys - Elems(ordered)
      ensures exists d :: d in g.Keys - Elems(ordered) && d in Succ(g, n)
    {
      PendingNone(Succ(g, n), Elems(ordered));
    }
  }

  method InitialQueue(datasets: seq<string>, indegree: map<string, int>) returns (queue: seq<string>)
    requires NoDup(datasets) && Elems(datasets) == indegree.Keys
    ensures NoDup(queue) && forall n :: n in queue <==> n in datasets && indegree[n] == 0
  {
    queue := [];
    for i := 0 to |datasets|
      invariant NoDup(queue) && forall n :: n in queue <==> n in datasets[..i] && indegree[n] == 0
    {
      assert datasets[..i + 1] == datasets[..i] + [datasets[i]];
      assert datasets[i] !in datasets[..i];
      if indegree[datasets[i]] == 0 {
        NoDupConcat(queue, [datasets[i]]);
        queue := queue + [datasets[i]];
      }
    }
    assert datasets[..|datasets|] == datasets;
  }

  // The inner loop: one dependency fewer for everything that names the popped dataset.
  method Relax(ghost g: Graph, ghost ordered: seq<string>, targets: seq<string>, indegree0: map<string, int>,
      queue0: seq<string>)
    returns (indegree: map<string, int>, queue: seq<string>)
    requires SweepInv(g, indegree0, queue0, ordered, targets)
    ensures SweepInv(g, indegree, queue, ordered, [])
  {
    indegree, queue := indegree0, queue0;
    for j := 0 to |targets|
      invariant SweepInv(g, indegree, queue, ordered, targets[j..])
    {
      var nxt := targets[j];
      RelaxStep(g, indegree, queue, ordered, targets[j..], targets[j + 1..], nxt);
      var left := indegree[nxt] - 1;
      indegree := indegree[nxt := left];
      queue := if left == 0 then queue + [nxt] else queue;
    }
  }

  // Kahn's loop. Whatever it leaves out has an unlisted dependency.
  method KahnSweep(datasets: seq<string>, depMap: Graph) returns (ordered: seq<string>)
    requires NoDup(datasets) && Elems(datasets) == depMap.Keys && Closed(depMap)
    ensures NoDup(ordered) && Elems(ordered) <= depMap.Keys && SuccessorsFirst(depMap, ordered)
    ensures Traps(depMap, depMap.Keys - Elems(ordered))
  {
    var indegree, edges := IndexEdges(datasets, depMap);
    var queue := InitialQueue(datasets, indegree);
    ordered := [];
    SweepStart(depMap, indegree, datasets, queue);
    while queue != []
      invariant SweepInv(depMap, indegree, queue, ordered, [])
      decreases |datasets| - |ordered|
    {
      var current := queue[0];
      PopStep(depMap, edges, indegree, queue, ordered);
      queue := queue[1..];
      ordered := ordered + [current];
      OrderedFits(depMap, datasets, ordered, queue);
      indegree, queue := Relax(depMap, ordered, Succ(edges, current), indegree, queue);
    }
    SweepEnd(depMap, indegree, ordered);
  }

  lemma OrderedFits(g: Graph, datasets: seq<string>, ordered: seq<string>, queue: seq<string>)
    requires NoDup(datasets) && Elems(datasets) == g.Keys
    requires NoDup(ordered + queue) && Elems(ordered + queue) <= g.Keys
    ensures |ordered| <= |datasets|
  {
    NoDupSize(datasets);
    NoDupSize(ordered + queue);
    SubsetSize(Elems(ordered + queue), g.Keys);
  }

  // Succeeds exactly on acyclic dependency maps, with a dependencies-first
  // listing of all datasets; a short listing exposes a cycle among the leftovers.
  method TopologicalOrder(datasets: seq<string>, depMap: Graph) returns (r: Option<seq<string>>)
    requires NoDup(datasets) && Elems(datasets) == depMap.Keys && Closed(depMap)
    ensures r.Some? <==> !Cyclic(depMap)
    ensures r.Some? ==> IsTopological(depMap, r.value)
  {
    var ordered := KahnSweep(datasets, depMap);
    NoDupSize(ordered);
    NoDupSize(datasets);
    var leftovers := depMap.Keys - Elems(ordered);
    if |ordered| != |datasets| {
      ghost var cycle := ShortResultHasCycle(depMap, ordered);
      return None;
    }
    assert leftovers == {} by {
      assert |depMap.Keys| == |Elems(ordered)| + |leftovers|;
    }
    TopologicalAcyclic(depMap, ordered);
    return Some(ordered);
  }

  // A listing that stops short leaves a real cycle among the unlisted datasets.
  lemma ShortResultHasCycle(g: Graph, ordered: seq<string>) returns (cycle: seq<string>)
    requires NoDup(ordered) && Elems(ordered) <= g.Keys && |ordered| != |g.Keys|
    requires Traps(g, g.Keys - Elems(ordered))
    ensures IsCycle(g, cycle) && forall n :: n in cycle ==> n in g && n !in ordered
  {
    NoDupSize(ordered);
    var leftovers := g.Keys - Elems(ordered);
    assert g.Keys == Elems(ordered) + leftovers;
    cycle := TrappedCycle(g, leftovers);
  }
}
