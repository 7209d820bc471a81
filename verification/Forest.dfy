// Forests given by a parent map: what an ancestor chain, a preorder listing
// and a path of labels mean, and how they relate.
module Forest {
  import opened Basics
  import opened PyText
  import Digraph

  type Parents = map<string, Option<string>>

  // Every parent that is named is a node.
  ghost predicate ParentsKnown(ps: Parents) {
    forall n {:trigger ParentKnown(ps, n)} :: n in ps ==> ParentKnown(ps, n)
  }

  ghost predicate ParentKnown(ps: Parents, n: string)
    requires n in ps
  {
    ps[n].Some? ==> ps[n].value in ps
  }

  ghost predicate IsRank(ps: Parents, rank: map<string, nat>, bound: nat) {
    rank.Keys == ps.Keys && forall n {:trigger RanksOne(ps, rank, bound, n)} :: n in ps ==> RanksOne(ps, rank, bound, n)
  }

  ghost predicate RanksOne(ps: Parents, rank: map<string, nat>, bound: nat, n: string)
    requires n in ps && rank.Keys == ps.Keys
  {
    rank[n] < bound && (ps[n].Some? && ps[n].value in ps ==> rank[ps[n].value] < rank[n])
  }

  // Parents can be ranked strictly below their children.
  ghost predicate Ranked(ps: Parents) {
    exists rank, bound :: IsRank(ps, rank, bound)
  }

  ghost predicate IsForest(ps: Parents) {
    ParentsKnown(ps) && Ranked(ps)
  }

  ghost function Ranking(ps: Parents): (r: (map<string, nat>, nat))
    requires Ranked(ps)
    ensures IsRank(ps, r.0, r.1)
  {
    var rank, bound :| IsRank(ps, rank, bound);
    (rank, bound)
  }

  ghost function Rank(ps: Parents, n: string): nat
    requires Ranked(ps) && n in ps
  {
    Ranking(ps).0[n]
  }

  ghost function Bound(ps: Parents): nat
    requires Ranked(ps)
  {
    Ranking(ps).1
  }

  lemma RankFacts(ps: Parents, n: string)
    requires IsForest(ps) && n in ps
    ensures Rank(ps, n) < Bound(ps)
    ensures ps[n].Some? ==> ps[n].value in ps && Rank(ps, ps[n].value) < Rank(ps, n)
  {
    assert ParentKnown(ps, n);
    assert RanksOne(ps, Ranking(ps).0, Ranking(ps).1, n);
  }

  lemma KnownParentGraph(ps: Parents)
    requires ParentsKnown(ps)
    ensures Digraph.Closed(ParentGraph(ps))
  {
    forall n | n in ps ensures ParentKnown(ps, n) {}
  }

  // ----- what a forest is, in graph terms ----------------------------------------

  // The graph `_has_cycle` builds: each node points at its parent.
  function ParentGraph(ps: Parents): (g: Digraph.Graph)
    ensures g.Keys == ps.Keys
    ensures forall n :: n in ps ==> g[n] == if ps[n].Some? then [ps[n].value] else []
  {
    map n | n in ps :: if ps[n].Some? then [ps[n].value] else []
  }

  // A parent map is a forest exactly when its parents are known and no chain of
  // parents returns to where it started.
  lemma ForestIffAcyclic(ps: Parents)
    requires ParentsKnown(ps)
    ensures IsForest(ps) <==> !Digraph.Cyclic(ParentGraph(ps))
  {
    var g := ParentGraph(ps);
    if IsForest(ps) {
      forall p ensures !Digraph.IsCycle(g, p) {
        if Digraph.IsCycle(g, p) {
          assert p[0 + 1] in Digraph.Succ(g, p[0]);
          WalkClimbs(ps, p, |p| - 1);
        }
      }
    }
    if !Digraph.Cyclic(g) {
      KnownParentGraph(ps);
      var order := Digraph.AcyclicHasOrder(g);
      OrderIsRank(ps, order);
    }
  }

  lemma {:induction false} WalkClimbs(ps: Parents, p: seq<string>, k: nat)
    requires IsForest(ps) && Digraph.IsWalk(ParentGraph(ps), p) && p[0] in ps && 0 < k < |p|
    ensures p[k] in ps && Rank(ps, p[k]) < Rank(ps, p[0])
  {
    if k > 1 { WalkClimbs(ps, p, k - 1); }
    assert p[(k - 1) + 1] in Digraph.Succ(ParentGraph(ps), p[k - 1]);
    RankFacts(ps, p[k - 1]);
  }

  lemma OrderIsRank(ps: Parents, order: seq<string>)
    requires Digraph.IsTopological(ParentGraph(ps), order)
    ensures Ranked(ps)
  {
    var rank := map n | n in ps :: Find(order, n) as nat;
    forall n | n in ps ensures RanksOne(ps, rank, |order|, n) {
      if ps[n].Some? && ps[n].value in ps {
        var i := Find(order, n);
        assert ps[n].value in Digraph.Succ(ParentGraph(ps), order[i]);
        assert ps[n].value in order[..i];
        var k :| 0 <= k < i && order[k] == ps[n].value;
        assert order[Find(order, ps[n].value)] == order[k];
      }
    }
    assert IsRank(ps, rank, |order|);
  }

  // ----- upward ------------------------------------------------------------------

  ghost function Ancestors(ps: Parents, n: string): (r: seq<string>)
    requires IsForest(ps) && n in ps
    ensures forall a :: a in r ==> a in ps && Rank(ps, a) < Rank(ps, n)
    decreases Rank(ps, n)
  {
    RankFacts(ps, n);
    match ps[n]
    case None => []
    case Some(p) => [p] + Ancestors(ps, p)
  }

  ghost function PathToRoot(ps: Parents, n: string): seq<string>
    requires IsForest(ps) && n in ps
  {
    [n] + Ancestors(ps, n)
  }

  // Ancestors of an ancestor are ancestors.
  lemma {:induction false} AncestorsSuffix(ps: Parents, n: string, a: string)
    requires IsForest(ps) && n in ps && a in Ancestors(ps, n)
    ensures forall x :: x in Ancestors(ps, a) ==> x in Ancestors(ps, n)
    decreases Rank(ps, n)
  {
    RankFacts(ps, n);
    var p := ps[n].value;
    if a != p { AncestorsSuffix(ps, p, a); }
  }

  // A chain is linear: of two members, one is above the other.
  lemma {:induction false} ChainLinear(ps: Parents, n: string, a: string, b: string)
    requires IsForest(ps) && n in ps && a in PathToRoot(ps, n) && b in PathToRoot(ps, n)
    ensures a == b || a in Ancestors(ps, b) || b in Ancestors(ps, a)
    decreases Rank(ps, n)
  {
    if a != n && b != n {
      RankFacts(ps, n);
      ChainLinear(ps, ps[n].value, a, b);
    }
  }

  lemma {:induction false} ChainEndsAtRoot(ps: Parents, n: string)
    requires IsForest(ps) && n in ps
    ensures ps[Last(PathToRoot(ps, n))].None?
    decreases Rank(ps, n)
  {
    if ps[n].Some? {
      RankFacts(ps, n);
      ChainEndsAtRoot(ps, ps[n].value);
      assert Last(PathToRoot(ps, n)) == Last(PathToRoot(ps, ps[n].value));
    }
  }

  // ----- downward ----------------------------------------------------------------

  function Children(ps: Parents, n: string): set<string> {
    set c | c in ps && ps[c] == Some(n)
  }

  function Roots(ps: Parents): set<string> {
    set c | c in ps && ps[c] == None
  }

  ghost function Height(ps: Parents, n: string): (h: nat)
    requires IsForest(ps) && n in ps
    ensures h > 0
  {
    RankFacts(ps, n);
    Bound(ps) - Rank(ps, n)
  }

  ghost predicate AllIn(ps: Parents, ns: seq<string>) {
    forall n :: n in ns ==> n in ps
  }

  ghost function MaxHeight(ps: Parents, ns: seq<string>): (h: nat)
    requires IsForest(ps) && AllIn(ps, ns)
    ensures forall n :: n in ns ==> Height(ps, n) <= h
    ensures h == 0 || exists n :: n in ns && Height(ps, n) == h
  {
    if ns == [] then 0 else
      var h := MaxHeight(ps, ns[1..]);
      assert forall n :: n in ns <==> n == ns[0] || n in ns[1..];
      if Height(ps, ns[0]) >= h then Height(ps, ns[0]) else h
  }

  lemma KidsLower(ps: Parents, n: string)
    requires IsForest(ps) && n in ps
    ensures AllIn(ps, SortedSet(Children(ps, n)))
    ensures MaxHeight(ps, SortedSet(Children(ps, n))) < Height(ps, n)
  {
    forall c | c in Children(ps, n) ensures Height(ps, c) < Height(ps, n) { RankFacts(ps, c); }
  }

  // Each node before its descendants, siblings in sorted order.
  ghost function Preorder(ps: Parents, n: string): seq<string>
    requires IsForest(ps) && n in ps
    decreases Height(ps, n), 0
  {
    KidsLower(ps, n);
    [n] + PreorderAll(ps, SortedSet(Children(ps, n)))
  }

  ghost function PreorderAll(ps: Parents, ns: seq<string>): seq<string>
    requires IsForest(ps) && AllIn(ps, ns)
    decreases MaxHeight(ps, ns), 1 + |ns|
  {
    if ns == [] then [] else
      assert ns[0] in ns;
      Preorder(ps, ns[0]) + PreorderAll(ps, ns[1..])
  }

  ghost function Descendants(ps: Parents, n: string): seq<string>
    requires IsForest(ps) && n in ps
  {
    KidsLower(ps, n);
    PreorderAll(ps, SortedSet(Children(ps, n)))
  }

  // What a depth-first stack (top last) still has to list.
  ghost function StackOrder(ps: Parents, stack: seq<string>): seq<string>
    requires IsForest(ps) && AllIn(ps, stack)
  {
    if stack == [] then [] else
      assert Last(stack) in stack;
      Preorder(ps, Last(stack)) + StackOrder(ps, stack[..|stack| - 1])
  }

  // Pushing a list in reverse makes the stack list it first, in order.
  lemma {:induction false} StackPush(ps: Parents, stack: seq<string>, ns: seq<string>, pushed: seq<string>)
    requires IsForest(ps) && AllIn(ps, stack) && AllIn(ps, ns) && pushed == stack + Reversed(ns)
    ensures AllIn(ps, pushed)
    ensures StackOrder(ps, pushed) == PreorderAll(ps, ns) + StackOrder(ps, stack)
  {
    if ns == [] {
      assert pushed == stack;
    } else {
      assert AllIn(ps, ns[1..]) && ns[0] in ns;
      var below := pushed[..|pushed| - 1];
      assert below == stack + Reversed(ns[1..]) && Last(pushed) == ns[0];
      StackPush(ps, stack, ns[1..], below);
      var first, others, under := Preorder(ps, ns[0]), PreorderAll(ps, ns[1..]), StackOrder(ps, stack);
      assert StackOrder(ps, pushed) == first + StackOrder(ps, below);
      assert PreorderAll(ps, ns) == first + others;
      ConcatAssoc(first, others, under);
    }
  }

  lemma {:induction false} InPreorderAll(ps: Parents, ns: seq<string>, x: string)
    requires IsForest(ps) && AllIn(ps, ns)
    ensures x in PreorderAll(ps, ns) <==> exists n :: n in ns && x in Preorder(ps, n)
  {
    if ns == [] {
    } else {
      assert AllIn(ps, ns[1..]);
      InPreorderAll(ps, ns[1..], x);
      assert ns[0] in ns;
      assert forall n :: n in ns <==> n == ns[0] || n in ns[1..];
      assert PreorderAll(ps, ns) == Preorder(ps, ns[0]) + PreorderAll(ps, ns[1..]);
    }
  }

  // A node's preorder is the node and exactly the nodes it is an ancestor of.
  lemma {:induction false} InPreorder(ps: Parents, n: string, x: string)
    requires IsForest(ps) && n in ps
    ensures x in Preorder(ps, n) <==> x in ps && n in PathToRoot(ps, x)
    decreases Height(ps, n)
  {
    KidsLower(ps, n);
    var kids := SortedSet(Children(ps, n));
    InPreorderAll(ps, kids, x);
    if x in ps && n in Ancestors(ps, x) {
      var c := ChildTowards(ps, n, x);
      RankFacts(ps, c);
      InPreorder(ps, c, x);
    }
    if c :| c in kids && x in Preorder(ps, c) {
      RankFacts(ps, c);
      InPreorder(ps, c, x);
      assert n in Ancestors(ps, c);
      if c in Ancestors(ps, x) { AncestorsSuffix(ps, x, c); }
    }
  }

  lemma {:induction false} ChildTowards(ps: Parents, n: string, x: string) returns (c: string)
    requires IsForest(ps) && n in ps && x in ps && n in Ancestors(ps, x)
    ensures c in Children(ps, n) && c in PathToRoot(ps, x)
    decreases Rank(ps, x)
  {
    RankFacts(ps, x);
    if ps[x].value == n {
      c := x;
    } else {
      c := ChildTowards(ps, n, ps[x].value);
    }
  }

  // Nodes that share a parent, or that are both roots, are not on one chain.
  lemma SiblingsApart(ps: Parents, a: string, b: string, x: string)
    requires IsForest(ps) && a in ps && b in ps && ps[a] == ps[b] && a != b
    requires x in Preorder(ps, a)
    ensures x !in Preorder(ps, b)
  {
    InPreorder(ps, a, x);
    InPreorder(ps, b, x);
    if x in Preorder(ps, b) {
      ChainLinear(ps, x, a, b);
      RankFacts(ps, a);
      RankFacts(ps, b);
    }
  }

  lemma {:induction false} PreorderNoDup(ps: Parents, n: string)
    requires IsForest(ps) && n in ps
    ensures NoDup(Preorder(ps, n))
    decreases Height(ps, n), 0
  {
    KidsLower(ps, n);
    var kids := SortedSet(Children(ps, n));
    PreorderAllNoDup(ps, kids, Some(n));
    forall x | x in PreorderAll(ps, kids) ensures x != n {
      InPreorderAll(ps, kids, x);
      var c :| c in kids && x in Preorder(ps, c);
      InPreorder(ps, c, x);
      RankFacts(ps, c);
    }
    NoDupConcat([n], PreorderAll(ps, kids));
  }

  lemma {:induction false} PreorderAllNoDup(ps: Parents, ns: seq<string>, p: Option<string>)
    requires IsForest(ps) && NoDup(ns) && AllIn(ps, ns) && forall n :: n in ns ==> ps[n] == p
    ensures NoDup(PreorderAll(ps, ns))
    decreases MaxHeight(ps, ns), 1 + |ns|
  {
    if ns == [] {
    } else {
      assert ns[0] in ns && ns == [ns[0]] + ns[1..];
      assert AllIn(ps, ns[1..]);
      PreorderNoDup(ps, ns[0]);
      PreorderAllNoDup(ps, ns[1..], p);
      forall x | x in Preorder(ps, ns[0]) ensures x !in PreorderAll(ps, ns[1..]) {
        InPreorderAll(ps, ns[1..], x);
        forall b | b in ns[1..] ensures x !in Preorder(ps, b) { SiblingsApart(ps, ns[0], b, x); }
      }
      NoDupConcat(Preorder(ps, ns[0]), PreorderAll(ps, ns[1..]));
    }
  }

  // ----- the main facts --------------------------------------------------------------

  // Looking down and looking up agree, and no node is listed twice.
  lemma DescendantsExact(ps: Parents, n: string)
    requires IsForest(ps) && n in ps
    ensures NoDup(Descendants(ps, n))
    ensures forall x :: x in Descendants(ps, n) <==> x in ps && n in Ancestors(ps, x)
  {
    PreorderNoDup(ps, n);
    var d := Descendants(ps, n);
    assert Preorder(ps, n) == [n] + d;
    assert d == Preorder(ps, n)[1..];
    forall x ensures x in d <==> x in ps && n in Ancestors(ps, x) {
      InPreorder(ps, n, x);
    }
  }

  ghost function SumSizes(ps: Parents, ns: seq<string>): nat
    requires IsForest(ps) && AllIn(ps, ns)
  {
    if ns == [] then 0 else
      assert ns[0] in ns;
      1 + |Descendants(ps, ns[0])| + SumSizes(ps, ns[1..])
  }

  lemma {:induction false} SumSizesIsLength(ps: Parents, ns: seq<string>)
    requires IsForest(ps) && AllIn(ps, ns)
    ensures SumSizes(ps, ns) == |PreorderAll(ps, ns)|
  {
    if ns == [] {
    } else {
      assert ns[0] in ns;
      assert AllIn(ps, ns[1..]);
      SumSizesIsLength(ps, ns[1..]);
    }
  }

  // The trees under the roots partition the nodes.
  lemma RootsPartition(ps: Parents)
    requires IsForest(ps)
    ensures var all := PreorderAll(ps, SortedSet(Roots(ps)));
      NoDup(all) && Elems(all) == ps.Keys && SumSizes(ps, SortedSet(Roots(ps))) == |ps|
  {
    var roots := SortedSet(Roots(ps));
    var all := PreorderAll(ps, roots);
    PreorderAllNoDup(ps, roots, None);
    forall x ensures x in all <==> x in ps {
      InPreorderAll(ps, roots, x);
      if x in ps {
        var r := Last(PathToRoot(ps, x));
        ChainEndsAtRoot(ps, x);
        assert r in PathToRoot(ps, x);
        InPreorder(ps, r, x);
      }
      if r :| r in roots && x in Preorder(ps, r) { InPreorder(ps, r, x); }
    }
    NoDupSize(all);
    assert Elems(all) == ps.Keys;
    SumSizesIsLength(ps, roots);
    assert |ps| == |ps.Keys|;
  }

  lemma {:induction false} AncestorsNoDup(ps: Parents, n: string)
    requires IsForest(ps) && n in ps
    ensures NoDup(PathToRoot(ps, n))
    decreases Rank(ps, n)
  {
    if ps[n].Some? {
      RankFacts(ps, n);
      AncestorsNoDup(ps, ps[n].value);
      assert PathToRoot(ps, n) == [n] + PathToRoot(ps, ps[n].value);
      NoDupConcat([n], PathToRoot(ps, ps[n].value));
    }
  }
}
