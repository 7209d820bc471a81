// The read-only query layer over a topology: upward loops, the explicit-stack
// descent, and paths of labels, each tied to its meaning on the forest.
// Source: connector/domain/dependency_tree/snapshot.py
module TopologySnapshot {
  import opened Basics
  import opened PyText
  import F = Forest

  datatype TopologyNode = TopologyNode(nodeId: string, parentId: Option<string>, displayName: string,
      canonicalName: string)

  // The lookup failure of `require_node`.
  datatype UnknownNode = UnknownNode(nodeId: string)

  ghost function PathOfLabels(ps: F.Parents, names: map<string, string>, n: string): (r: seq<string>)
    requires F.IsForest(ps) && n in ps && names.Keys == ps.Keys
    ensures r != [] && Last(r) == names[n]
    decreases F.Rank(ps, n)
  {
    F.RankFacts(ps, n);
    match ps[n]
    case None => [names[n]]
    case Some(p) => PathOfLabels(ps, names, p) + [names[n]]
  }

  lemma {:induction false} PathOfLabelsFromRoot(ps: F.Parents, names: map<string, string>, n: string)
    requires F.IsForest(ps) && n in ps && names.Keys == ps.Keys
    ensures var up := F.PathToRoot(ps, n);
      && |PathOfLabels(ps, names, n)| == |up|
      && forall i :: 0 <= i < |up| ==>
        up[|up| - 1 - i] in ps && PathOfLabels(ps, names, n)[i] == names[up[|up| - 1 - i]]
    decreases F.Rank(ps, n)
  {
    if ps[n].Some? {
      F.RankFacts(ps, n);
      PathOfLabelsFromRoot(ps, names, ps[n].value);
      assert F.PathToRoot(ps, n) == [n] + F.PathToRoot(ps, ps[n].value);
    }
  }

  datatype Snapshot = Snapshot(
    nodesById: map<string, TopologyNode>, parentById: F.Parents,
    childrenById: map<string, seq<string>>, roots: seq<string>)
  {
    ghost predicate KidsSorted(n: string)
      requires n in childrenById
    {
      childrenById[n] == SortedSet(F.Children(parentById, n))
    }

    // What the builders hand over.
    ghost predicate WellFormed() {
      && F.IsForest(parentById)
      && nodesById.Keys == parentById.Keys == childrenById.Keys
      && (forall n {:trigger nodesById[n]} ::
        n in nodesById ==> nodesById[n].nodeId == n && nodesById[n].parentId == parentById[n])
      && (forall n {:trigger KidsSorted(n)} :: n in childrenById ==> KidsSorted(n))
      && roots == SortedSet(F.Roots(parentById))
    }

    ghost function Labels(): map<string, string>
      requires nodesById.Keys == parentById.Keys
    {
      map n | n in parentById :: nodesById[n].canonicalName
    }

    ghost function PathOf(n: string): seq<string>
      requires WellFormed() && n in nodesById
    {
      PathOfLabels(parentById, Labels(), n)
    }

    function ParentId(n: string): (r: Result<Option<string>, UnknownNode>)
      ensures r.Err? <==> n !in nodesById
    {
      if n !in nodesById then Err(UnknownNode(n))
      else Ok(if n in parentById then parentById[n] else None)
    }

    function ChildrenIds(n: string): (r: Result<seq<string>, UnknownNode>)
      ensures r.Err? <==> n !in nodesById
    {
      if n !in nodesById then Err(UnknownNode(n))
      else Ok(if n in childrenById then childrenById[n] else [])
    }

    // Follows parents from `start` until there is none.
    method Climb(n: string, first: seq<string>) returns (result: seq<string>)
      requires WellFormed() && n in nodesById
      ensures result == first + F.Ancestors(parentById, n)
    {
      result := first;
      var current := ParentId(n).value;
      ghost var at := n;
      while current != None
        invariant at in parentById && current == parentById[at]
        invariant result + F.Ancestors(parentById, at) == first + F.Ancestors(parentById, n)
        decreases F.Rank(parentById, at)
      {
        F.RankFacts(parentById, at);
        assert F.Ancestors(parentById, at) == [current.value] + F.Ancestors(parentById, current.value);
        result := result + [current.value];
        at := current.value;
        current := ParentId(current.value).value;
      }
    }

    method Ancestors(n: string) returns (r: Result<seq<string>, UnknownNode>)
      requires WellFormed()
      ensures r == if n in nodesById then Ok(F.Ancestors(parentById, n)) else Err(UnknownNode(n))
    {
      if n !in nodesById { return Err(UnknownNode(n)); }
      var up := Climb(n, []);
      assert [] + F.Ancestors(parentById, n) == F.Ancestors(parentById, n);
      return Ok(up);
    }

    method PathToRoot(n: string) returns (r: Result<seq<string>, UnknownNode>)
      requires WellFormed()
      ensures r == if n in nodesById then Ok(F.PathToRoot(parentById, n)) else Err(UnknownNode(n))
    {
      if n !in nodesById { return Err(UnknownNode(n)); }
      var up := Climb(n, [n]);
      return Ok(up);
    }

    lemma DepthOfPath(n: string)
      requires WellFormed() && n in nodesById
      ensures |PathOf(n)| == |F.Ancestors(parentById, n)| + 1
    {
      PathOfLabelsFromRoot(parentById, Labels(), n);
    }

    method Depth(n: string) returns (r: Result<nat, UnknownNode>)
      requires WellFormed()
      ensures r == if n in nodesById then Ok(|PathOf(n)| - 1) else Err(UnknownNode(n))
    {
      var up := Ancestors(n);
      if up.Err? { return Err(up.error); }
      DepthOfPath(n);
      return Ok(|up.value|);
    }

    method RootId(n: string) returns (r: Result<string, UnknownNode>)
      requires WellFormed()
      ensures n !in nodesById ==> r == Err(UnknownNode(n))
      ensures n in nodesById ==> r.Ok? && r.value in roots && n in F.Preorder(parentById, r.value)
    {
      var up := PathToRoot(n);
      if up.Err? { return Err(up.error); }
      F.ChainEndsAtRoot(parentById, n);
      var root := Last(up.value);
      assert root in up.value;
      F.InPreorder(parentById, root, n);
      return Ok(root);
    }

    method CanonicalPath(n: string) returns (r: Result<seq<string>, UnknownNode>)
      requires WellFormed()
      ensures r == if n in nodesById then Ok(PathOf(n)) else Err(UnknownNode(n))
    {
      var up := PathToRoot(n);
      if up.Err? { return Err(up.error); }
      var ids := Reversed(up.value);
      LabelsAreThePath(n, ids);
      return Ok(LabelsOf(ids));
    }

    function LabelsOf(ids: seq<string>): (labels: seq<string>)
      requires forall i :: 0 <= i < |ids| ==> ids[i] in nodesById
    {
      seq(|ids|, i requires 0 <= i < |ids| => nodesById[ids[i]].canonicalName)
    }

    lemma LabelsAreThePath(n: string, ids: seq<string>)
      requires WellFormed() && n in nodesById && ids == Reversed(F.PathToRoot(parentById, n))
      ensures forall i :: 0 <= i < |ids| ==> ids[i] in nodesById
      ensures LabelsOf(ids) == PathOf(n)
    {
      PathOfLabelsFromRoot(parentById, Labels(), n);
    }

    // Depth-first descent with an explicit stack; the top is the last item.
    method Descendants(n: string) returns (r: Result<seq<string>, UnknownNode>)
      requires WellFormed()
      ensures n !in nodesById ==> r == Err(UnknownNode(n))
      ensures n in nodesById ==> r == Ok(F.Descendants(parentById, n))
    {
      if n !in nodesById { return Err(UnknownNode(n)); }
      var result := [];
      var kids := SortedKids(n);
      var stack := Reversed(kids);
      DescendStart(n, stack);
      while stack != []
        invariant F.AllIn(parentById, stack)
        invariant F.Descendants(parentById, n) == result + F.StackOrder(parentById, stack)
        decreases |F.StackOrder(parentById, stack)|
      {
        var current := Last(stack);
        assert current in stack;
        kids := SortedKids(current);
        ghost var pushed := stack[..|stack| - 1] + Reversed(kids);
        DescendStep(stack, pushed);
        ConcatAssoc(result, [current], F.StackOrder(parentById, pushed));
        result := result + [current];
        stack := stack[..|stack| - 1] + Reversed(kids);
      }
      DescendEnd(result);
      return Ok(result);
    }

    // `sorted(self.children_ids(n))`
    method SortedKids(n: string) returns (r: seq<string>)
      requires WellFormed() && n in nodesById
      ensures r == SortedChildren(n)
    {
      var kids := ChildrenIds(n).value;
      assert KidsSorted(n);
      assert Elems(kids) == F.Children(parentById, n);
      r := Sorted(Elems(kids));
    }

    ghost function SortedChildren(n: string): seq<string>
      requires WellFormed() && n in nodesById
    {
      SortedSet(F.Children(parentById, n))
    }

    lemma DescendStart(n: string, stack: seq<string>)
      requires WellFormed() && n in nodesById && stack == Reversed(SortedChildren(n))
      ensures F.AllIn(parentById, stack)
      ensures F.Descendants(parentById, n) == [] + F.StackOrder(parentById, stack)
    {
      F.KidsLower(parentById, n);
      F.StackPush(parentById, [], SortedChildren(n), stack);
      var all := F.Descendants(parentById, n);
      assert F.StackOrder(parentById, []) == [];
      assert all + [] == all && [] + all == all;
    }

    lemma DescendEnd(result: seq<string>)
      requires WellFormed()
      ensures result + F.StackOrder(parentById, []) == result
    {
      assert F.StackOrder(parentById, []) == [];
    }

    // Popping a node and pushing its children lists the node first.
    lemma DescendStep(stack: seq<string>, pushed: seq<string>)
      requires WellFormed() && stack != [] && F.AllIn(parentById, stack)
      requires Last(stack) in nodesById && pushed == stack[..|stack| - 1] + Reversed(SortedChildren(Last(stack)))
      ensures F.AllIn(parentById, pushed)
      ensures F.StackOrder(parentById, stack) == [Last(stack)] + F.StackOrder(parentById, pushed)
    {
      var current, rest := Last(stack), stack[..|stack| - 1];
      F.KidsLower(parentById, current);
      F.StackPush(parentById, rest, SortedChildren(current), pushed);
    }
  }

  // Both builders end by sorting the child sets.
  method FreezeChildren(children: map<string, set<string>>) returns (frozen: map<string, seq<string>>)
    ensures frozen == map n | n in children :: SortedSet(children[n])
  {
    frozen := map[];
    var keys := children.Keys;
    while keys != {}
      invariant keys <= children.Keys
      invariant frozen == map n | n in children.Keys - keys :: SortedSet(children[n])
    {
      var n :| n in keys;
      var kids := Sorted(children[n]);
      assert children.Keys - (keys - {n}) == (children.Keys - keys) + {n};
      frozen := frozen[n := kids];
      keys := keys - {n};
    }
  }

  const EMPTY := Snapshot(map[], map[], map[], [])

  lemma EmptyWellFormed()
    ensures EMPTY.WellFormed()
  {
    assert F.IsRank(map[], map[], 0);
    assert F.Roots(map[]) == {};
  }

  // The snapshot of finished dicts.
  ghost function Frozen(nodes: map<string, TopologyNode>, ps: F.Parents, children: map<string, set<string>>): Snapshot {
    Snapshot(nodes, ps, map n | n in children :: SortedSet(children[n]), SortedSet(F.Roots(ps)))
  }

  lemma FrozenWellFormed(nodes: map<string, TopologyNode>, ps: F.Parents, children: map<string, set<string>>)
    requires F.IsForest(ps) && nodes.Keys == ps.Keys == children.Keys
    requires forall n {:trigger nodes[n]} :: n in nodes ==> nodes[n].nodeId == n && nodes[n].parentId == ps[n]
    requires forall n {:trigger children[n]} :: n in children ==> children[n] == F.Children(ps, n)
    ensures Frozen(nodes, ps, children).WellFormed()
  {
    var s := Frozen(nodes, ps, children);
    forall n | n in s.childrenById ensures s.KidsSorted(n) { assert children[n] == F.Children(ps, n); }
  }

  // A well-formed snapshot is determined by its nodes.
  lemma NodesDetermine(s: Snapshot, t: Snapshot)
    requires s.WellFormed() && t.WellFormed() && s.nodesById == t.nodesById
    ensures s == t
  {
    forall n | n in s.parentById ensures s.parentById[n] == t.parentById[n] {
      assert s.nodesById[n].parentId == t.nodesById[n].parentId;
    }
    assert s.parentById == t.parentById;
    forall n | n in s.childrenById ensures s.childrenById[n] == t.childrenById[n] {
      assert s.KidsSorted(n) && t.KidsSorted(n);
    }
    assert s.childrenById == t.childrenById;
  }

  // ----- what the answers mean together ----------------------------------------------

  // Looking down inverts looking up, without repeats.
  lemma DescendantsInvertAncestors(s: Snapshot, a: string)
    requires s.WellFormed() && a in s.nodesById
    ensures NoDup(F.Descendants(s.parentById, a))
    ensures forall n :: n in F.Descendants(s.parentById, a) <==> n in s.nodesById && a in F.Ancestors(s.parentById, n)
  {
    F.DescendantsExact(s.parentById, a);
  }

  // The roots and their descendants partition the nodes, so their sizes add up.
  lemma RootsCoverSnapshot(s: Snapshot)
    requires s.WellFormed()
    ensures var all := F.PreorderAll(s.parentById, s.roots);
      NoDup(all) && Elems(all) == s.nodesById.Keys
    ensures F.SumSizes(s.parentById, s.roots) == |s.nodesById|
  {
    F.RootsPartition(s.parentById);
    assert |s.nodesById| == |s.nodesById.Keys| && |s.parentById| == |s.parentById.Keys|;
  }

  // A node's path is its parent's path and its own label.
  lemma PathStep(s: Snapshot, id: string)
    requires s.WellFormed() && id in s.nodesById
    ensures s.parentById[id].Some? ==> s.parentById[id].value in s.nodesById
    ensures s.PathOf(id) ==
      (if s.parentById[id].Some? then s.PathOf(s.parentById[id].value) else []) + [s.Labels()[id]]
  {
    F.RankFacts(s.parentById, id);
  }

  // No two children of one node, and no two roots, share a label.
  ghost predicate DistinctSiblingLabels(s: Snapshot)
    requires s.WellFormed()
  {
    forall a, b :: a in s.nodesById && b in s.nodesById && a != b && s.parentById[a] == s.parentById[b]
      ==> s.nodesById[a].canonicalName != s.nodesById[b].canonicalName
  }

  // Distinct sibling labels are exactly what makes canonical paths identify nodes.
  lemma PathsIdentifyNodes(s: Snapshot)
    requires s.WellFormed()
    ensures DistinctSiblingLabels(s) <==>
      forall a, b :: a in s.nodesById && b in s.nodesById && s.PathOf(a) == s.PathOf(b) ==> a == b
  {
    if DistinctSiblingLabels(s) {
      forall a, b | a in s.nodesById && b in s.nodesById && s.PathOf(a) == s.PathOf(b) ensures a == b {
        SamePathSameNode(s, a, b);
      }
    } else {
      var a, b :| a in s.nodesById && b in s.nodesById && a != b && s.parentById[a] == s.parentById[b]
        && s.nodesById[a].canonicalName == s.nodesById[b].canonicalName;
      assert s.PathOf(a) == s.PathOf(b);
    }
  }

  lemma {:induction false} SamePathSameNode(s: Snapshot, a: string, b: string)
    requires s.WellFormed() && DistinctSiblingLabels(s)
    requires a in s.nodesById && b in s.nodesById && s.PathOf(a) == s.PathOf(b)
    ensures a == b
    decreases F.Rank(s.parentById, a)
  {
    var pa, pb := s.PathOf(a), s.PathOf(b);
    assert Last(pa) == s.nodesById[a].canonicalName && Last(pb) == s.nodesById[b].canonicalName;
    F.RankFacts(s.parentById, a);
    F.RankFacts(s.parentById, b);
    if s.parentById[a].Some? && s.parentById[b].Some? {
      assert s.PathOf(s.parentById[a].value) == pa[..|pa| - 1];
      assert s.PathOf(s.parentById[b].value) == pb[..|pb| - 1];
      SamePathSameNode(s, s.parentById[a].value, s.parentById[b].value);
    }
  }
}
