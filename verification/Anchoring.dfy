// Deciding which source nodes are anchored: a memoised climb with cycle
// detection, then a sweep that drops everything below a failing node.
// Source: connector/domain/dependency_tree/anchoring.py
module Anchoring {
  import opened Basics
  import opened PyText
  import F = Forest
  import opened Climb
  import TopologySnapshot

  datatype SourceNode = SourceNode(nodeId: string, parentId: Option<string>, nodeLabel: string)

  datatype Reason = MissingParent | UnanchoredSubtree | Cycle

  datatype Verdict = Verdict(nodeId: string, reason: Reason, brokenAt: string)

  datatype AnchoringResult = AnchoringResult(anchoredIds: set<string>, dropped: map<string, Verdict>)

  // ----- deduplication ------------------------------------------------------------------

  // The parent named by the first node of each id.
  ghost function FirstParents(nodes: seq<SourceNode>): F.Parents {
    if nodes == [] then map[] else
      var ps, n := FirstParents(nodes[..|nodes| - 1]), Last(nodes);
      if n.nodeId in ps then ps else ps[n.nodeId := n.parentId]
  }

  ghost predicate IsFirst(nodes: seq<SourceNode>, id: string, i: int) {
    0 <= i < |nodes| && nodes[i].nodeId == id && forall j :: 0 <= j < i ==> nodes[j].nodeId != id
  }

  lemma {:induction false} FirstParentsMeans(nodes: seq<SourceNode>, id: string)
    ensures id in FirstParents(nodes) <==> exists i :: 0 <= i < |nodes| && nodes[i].nodeId == id
    ensures forall i :: IsFirst(nodes, id, i) ==>
      id in FirstParents(nodes) && FirstParents(nodes)[id] == nodes[i].parentId
  {
    if nodes == [] {
    } else {
      var front := nodes[..|nodes| - 1];
      FirstParentsMeans(front, id);
      assert nodes == front + [Last(nodes)];
      assert forall i :: 0 <= i < |front| ==> front[i] == nodes[i];
      assert forall i :: IsFirst(nodes, id, i) && i < |front| ==> IsFirst(front, id, i);
    }
  }

  method DeduplicateFirst(nodes: seq<SourceNode>) returns (parentById: F.Parents)
    ensures parentById == FirstParents(nodes)
  {
    parentById := map[];
    for i := 0 to |nodes|
      invariant parentById == FirstParents(nodes[..i])
    {
      assert nodes[..i + 1][..i] == nodes[..i] && Last(nodes[..i + 1]) == nodes[i];
      if nodes[i].nodeId !in parentById {
        parentById := parentById[nodes[i].nodeId := nodes[i].parentId];
      }
    }
    assert nodes[..|nodes|] == nodes;
  }

  // The child sets once every id outside `ids` is filed under its parent.
  ghost predicate ChildrenBut(ps: F.Parents, sets: map<string, set<string>>, ids: set<string>) {
    sets.Keys == ps.Keys && forall n {:trigger sets[n]} :: n in sets ==> sets[n] == F.Children(ps, n) - ids
  }

  function FileChild(ps: F.Parents, sets: map<string, set<string>>, id: string): map<string, set<string>>
    requires id in ps
  {
    if ps[id].Some? && ps[id].value in sets then sets[ps[id].value := sets[ps[id].value] + {id}] else sets
  }

  lemma FileChildStep(ps: F.Parents, sets: map<string, set<string>>, ids: set<string>, id: string)
    requires ChildrenBut(ps, sets, ids) && id in ids && id in ps
    ensures ChildrenBut(ps, FileChild(ps, sets, id), ids - {id})
  {
    var after := FileChild(ps, sets, id);
    forall n | n in after ensures after[n] == F.Children(ps, n) - (ids - {id}) {
      assert sets[n] == F.Children(ps, n) - ids;
    }
  }

  method ChildSets(parentById: F.Parents) returns (sets: map<string, set<string>>)
    ensures ChildrenBut(parentById, sets, {})
  {
    sets := map n | n in parentById :: {};
    var ids := parentById.Keys;
    while ids != {}
      invariant ids <= parentById.Keys && ChildrenBut(parentById, sets, ids)
    {
      var id :| id in ids;
      FileChildStep(parentById, sets, ids, id);
      sets := FileChild(parentById, sets, id);
      ids := ids - {id};
    }
  }

  // `_build_children`: under each node its children, sorted.
  ghost predicate ChildIndex(ps: F.Parents, children: map<string, seq<string>>) {
    children.Keys == ps.Keys && forall n {:trigger KidsSorted(ps, children, n)} ::
      n in children ==> KidsSorted(ps, children, n)
  }

  ghost predicate KidsSorted(ps: F.Parents, children: map<string, seq<string>>, n: string)
    requires n in children
  {
    children[n] == SortedSet(F.Children(ps, n))
  }

  lemma NoneLeft(ps: F.Parents, sets: map<string, set<string>>, n: string)
    requires ChildrenBut(ps, sets, {}) && n in sets
    ensures sets[n] == F.Children(ps, n)
  {}

  method BuildChildren(parentById: F.Parents) returns (children: map<string, seq<string>>)
    ensures ChildIndex(parentById, children)
  {
    var sets := ChildSets(parentById);
    children := TopologySnapshot.FreezeChildren(sets);
    forall n | n in children ensures KidsSorted(parentById, children, n) {
      NoneLeft(parentById, sets, n);
    }
  }

  // ----- the memoised climb --------------------------------------------------------------

  // What the verdict on `n` must be, read off the plain climb.
  ghost predicate Judges(ps: F.Parents, stop: set<string>, n: string, v: Option<Verdict>) {
    && n in ps
    && match End(ps, stop, n)
       case Anchored => v == None
       case BrokenAt(absent) =>
         v == Some(Verdict(n, if Orphan(ps, stop, n) then MissingParent else UnanchoredSubtree, absent))
       case Endless =>
         v.Some? && v.value.nodeId == n && v.value.reason == Cycle
         && ClimbsTo(ps, stop, n, v.value.brokenAt) && OnCycle(ps, stop, v.value.brokenAt)
  }

  type Memo = map<string, Option<Verdict>>

  ghost predicate AllJudged(ps: F.Parents, stop: set<string>, memo: Memo) {
    forall n {:trigger memo[n]} :: n in memo ==> Judges(ps, stop, n, memo[n])
  }

  // Verdicts agree along a step up: same failure, same id to blame.
  ghost predicate Agrees(memo: Memo, n: string, p: string) {
    n in memo && p in memo && (memo[n].Some? <==> memo[p].Some?)
    && (memo[n].Some? ==> memo[n].value.brokenAt == memo[p].value.brokenAt)
  }

  ghost predicate Linked(ps: F.Parents, stop: set<string>, memo: Memo, open: set<string>) {
    forall n {:trigger Next(ps, stop, n)} ::
      n in memo && n !in open && Next(ps, stop, n).Some? ==> Agrees(memo, n, Next(ps, stop, n).value)
  }

  // The stack is the path climbed to reach `n`.
  ghost predicate IsStack(ps: F.Parents, stop: set<string>, stack: seq<string>, n: string) {
    && NoDup(stack) && Elems(stack) <= ps.Keys
    && forall i :: 0 <= i < |stack| ==> StackStep(ps, stop, stack, n, i)
  }

  ghost predicate StackStep(ps: F.Parents, stop: set<string>, stack: seq<string>, n: string, i: nat)
    requires i < |stack|
  {
    Next(ps, stop, stack[i]) == Some(if i + 1 < |stack| then stack[i + 1] else n)
  }

  lemma {:induction false} StackClimbs(ps: F.Parents, stop: set<string>, stack: seq<string>, n: string, i: nat)
    requires IsStack(ps, stop, stack, n) && i < |stack|
    ensures Up(ps, stop, stack[i], |stack| - i) == Some(n)
    decreases |stack| - i
  {
    assert StackStep(ps, stop, stack, n, i);
    if i + 1 < |stack| { StackClimbs(ps, stop, stack, n, i + 1); }
  }

  lemma StackGrows(ps: F.Parents, stop: set<string>, stack: seq<string>, n: string, p: string)
    requires IsStack(ps, stop, stack, n) && n in ps && n !in stack && Next(ps, stop, n) == Some(p)
    ensures IsStack(ps, stop, stack + [n], p)
    ensures |stack| < |ps.Keys|
  {
    var s := stack + [n];
    NoDupConcat(stack, [n]);
    NoDupSize(s);
    assert Elems(s) == Elems(stack) + {n};
    SubsetSize(Elems(s), ps.Keys);
    forall i | 0 <= i < |s| ensures StackStep(ps, stop, s, p, i) {
      if i < |stack| {
        assert s[i] == stack[i];
        assert StackStep(ps, stop, stack, n, i);
      }
    }
  }

  // Revisiting a node of the stack closes a cycle through it.
  lemma ClosedStack(ps: F.Parents, stop: set<string>, stack: seq<string>, n: string)
    requires IsStack(ps, stop, stack, n) && n in stack
    ensures n in ps && Judges(ps, stop, n, Some(Verdict(n, Cycle, n)))
  {
    var i := Find(stack, n);
    StackClimbs(ps, stop, stack, n, i);
    assert OnCycle(ps, stop, n);
    CycleEndless(ps, stop, n);
    assert Up(ps, stop, n, 0) == Some(n);
  }

  lemma StopsJudged(ps: F.Parents, stop: set<string>, n: string)
    requires n in ps && Next(ps, stop, n).None?
    ensures Judges(ps, stop, n, if Grounded(ps, stop, n) then None else Some(Verdict(n, MissingParent, ps[n].value)))
  {
    EndHere(ps, stop, n);
  }

  // The verdict a node takes over from its parent.
  function Inherited(n: string, v: Verdict): Verdict {
    Verdict(n, if v.reason == Cycle then Cycle else UnanchoredSubtree, v.brokenAt)
  }

  lemma InheritedJudged(ps: F.Parents, stop: set<string>, n: string, p: string, v: Option<Verdict>)
    requires n in ps && Next(ps, stop, n) == Some(p) && Judges(ps, stop, p, v)
    ensures Judges(ps, stop, n, if v == None then None else Some(Inherited(n, v.value)))
  {
    EndStep(ps, stop, n);
    if End(ps, stop, p) == Endless {
      var k: nat :| Up(ps, stop, p, k) == Some(v.value.brokenAt);
      assert Up(ps, stop, n, k + 1) == Up(ps, stop, p, k);
    }
  }

  // What `visit` leaves behind: its stack stays unjudged, except that the entry
  // of a cycle just closed already carries its own verdict.
  ghost predicate StackOpen(memo: Memo, stack: seq<string>, v: Option<Verdict>) {
    forall n :: n in stack && n in memo ==> v.Some? && v.value.brokenAt == n && memo[n] == Some(Verdict(n, Cycle, n))
  }

  class AnchorWalk {
    const parentById: F.Parents
    const targetIds: set<string>
    var memo: Memo

    constructor (parentById: F.Parents, targetIds: set<string>)
      ensures this.parentById == parentById && this.targetIds == targetIds && memo == map[]
    {
      this.parentById, this.targetIds, this.memo := parentById, targetIds, map[];
    }

    ghost predicate Sound()
      reads this
    {
      memo.Keys <= parentById.Keys && AllJudged(parentById, targetIds, memo)
    }

    method Visit(nodeId: string, stack: seq<string>) returns (verdict: Option<Verdict>)
      requires nodeId in parentById && IsStack(parentById, targetIds, stack, nodeId)
      requires Sound() && Linked(parentById, targetIds, memo, {}) && forall n :: n in stack ==> n !in memo
      modifies this`memo
      ensures Sound() && Linked(parentById, targetIds, memo, Elems(stack)) && StackOpen(memo, stack, verdict)
      ensures nodeId in memo && memo[nodeId] == verdict
      ensures forall n :: n in old(memo) ==> n in memo && memo[n] == old(memo)[n]
      decreases |parentById.Keys| - |stack|
    {
      if nodeId in memo {
        return memo[nodeId];
      }
      if nodeId in stack {
        verdict := Some(Verdict(nodeId, Cycle, nodeId));
        ClosedStack(parentById, targetIds, stack, nodeId);
        Record(nodeId, verdict, Elems(stack));
        return;
      }
      var parentId := parentById[nodeId];
      if parentId.None? || parentId.value in targetIds {
        StopsJudged(parentById, targetIds, nodeId);
        Record(nodeId, None, {});
        return None;
      }
      if parentId.value !in parentById {
        StopsJudged(parentById, targetIds, nodeId);
        verdict := Some(Verdict(nodeId, MissingParent, parentId.value));
        Record(nodeId, verdict, {});
        return;
      }
      StackGrows(parentById, targetIds, stack, nodeId, parentId.value);
      var parentVerdict := Visit(parentId.value, stack + [nodeId]);
      InheritedJudged(parentById, targetIds, nodeId, parentId.value, parentVerdict);
      verdict := if parentVerdict == None then None else Some(Inherited(nodeId, parentVerdict.value));
      Settle(nodeId, parentId.value, verdict, stack);
    }

    // Writes a first verdict.
    method Record(nodeId: string, verdict: Option<Verdict>, ghost open: set<string>)
      requires Sound() && Linked(parentById, targetIds, memo, {}) && nodeId !in memo
      requires Judges(parentById, targetIds, nodeId, verdict)
      requires nodeId in open || Next(parentById, targetIds, nodeId).None?
      modifies this`memo
      ensures memo == old(memo)[nodeId := verdict]
      ensures Sound() && Linked(parentById, targetIds, memo, open)
    {
      memo := memo[nodeId := verdict];
      forall n | n in memo && n !in open && Next(parentById, targetIds, n).Some?
        ensures Agrees(memo, n, Next(parentById, targetIds, n).value)
      {
        assert Agrees(old(memo), n, Next(parentById, targetIds, n).value);
      }
    }

    // Writes a verdict taken over from the parent, replacing the provisional one
    // if this node closed the cycle.
    method Settle(nodeId: string, parentId: string, verdict: Option<Verdict>, ghost stack: seq<string>)
      requires nodeId in parentById && nodeId !in stack && Next(parentById, targetIds, nodeId) == Some(parentId)
      requires Sound() && Linked(parentById, targetIds, memo, Elems(stack + [nodeId])) && parentId in memo
      requires StackOpen(memo, stack + [nodeId], memo[parentId])
      requires verdict == if memo[parentId] == None then None else Some(Inherited(nodeId, memo[parentId].value))
      requires Judges(parentById, targetIds, nodeId, verdict)
      modifies this`memo
      ensures memo == old(memo)[nodeId := verdict]
      ensures nodeId in old(memo) ==> old(memo)[nodeId] == verdict
      ensures Sound() && Linked(parentById, targetIds, memo, Elems(stack)) && StackOpen(memo, stack, verdict)
    {
      memo := memo[nodeId := verdict];
      assert nodeId in stack + [nodeId];
      forall n | n in memo && n !in Elems(stack) && Next(parentById, targetIds, n).Some?
        ensures Agrees(memo, n, Next(parentById, targetIds, n).value)
      {
        if n != nodeId {
          assert n !in Elems(stack + [nodeId]);
          assert Agrees(old(memo), n, Next(parentById, targetIds, n).value);
        }
      }
      forall n | n in stack && n in memo
        ensures verdict.Some? && verdict.value.brokenAt == n && memo[n] == Some(Verdict(n, Cycle, n))
      {
        assert n in stack + [nodeId] && n in old(memo);
      }
    }
  }

  // Visits every source node in sorted order.
  method VisitAll(parentById: F.Parents, targetIds: set<string>) returns (memo: Memo)
    ensures memo.Keys == parentById.Keys && AllJudged(parentById, targetIds, memo)
      && Linked(parentById, targetIds, memo, {})
  {
    var walk := new AnchorWalk(parentById, targetIds);
    var ids := Sorted(parentById.Keys);
    assert Elems<string>([]) == {};
    for i := 0 to |ids|
      invariant walk.parentById == parentById && walk.targetIds == targetIds
      invariant walk.Sound() && Linked(parentById, targetIds, walk.memo, {})
      invariant Elems(ids[..i]) <= walk.memo.Keys
    {
      assert ids[..i + 1] == ids[..i] + [ids[i]];
      var _ := walk.Visit(ids[i], []);
    }
    assert ids[..|ids|] == ids;
    assert Elems(ids) == parentById.Keys;
    return walk.memo;
  }

  // Keeps the failures.
  method JudgeAll(parentById: F.Parents, targetIds: set<string>) returns (failing: map<string, Verdict>)
    ensures IsFailures(parentById, targetIds, failing)
  {
    var memo := VisitAll(parentById, targetIds);
    FailuresOfMemo(parentById, targetIds, memo);
    failing := map n | n in memo && memo[n].Some? :: memo[n].value;
  }

  // The failing nodes with their verdicts; a parent on the climb fails with the
  // same id to blame.
  ghost predicate IsFailures(ps: F.Parents, stop: set<string>, failing: map<string, Verdict>) {
    && (forall n {:trigger Judges(ps, stop, n, Some(failing[n]))} ::
      n in failing ==> Judges(ps, stop, n, Some(failing[n])))
    && (forall n {:trigger Fails(ps, stop, n)} :: n in failing <==> Fails(ps, stop, n))
    && (forall n {:trigger BlamesAlike(ps, stop, failing, n)} :: n in failing ==> BlamesAlike(ps, stop, failing, n))
  }

  // The parent the climb goes to fails too, with the same id to blame.
  ghost predicate BlamesAlike(ps: F.Parents, stop: set<string>, failing: map<string, Verdict>, n: string)
    requires n in failing
  {
    Next(ps, stop, n).Some? ==>
      Next(ps, stop, n).value in failing && failing[Next(ps, stop, n).value].brokenAt == failing[n].brokenAt
  }

  lemma FailuresOfMemo(ps: F.Parents, stop: set<string>, memo: Memo)
    requires memo.Keys == ps.Keys && AllJudged(ps, stop, memo) && Linked(ps, stop, memo, {})
    ensures IsFailures(ps, stop, map n | n in memo && memo[n].Some? :: memo[n].value)
  {
    var failing := map n | n in memo && memo[n].Some? :: memo[n].value;
    forall n ensures n in failing <==> Fails(ps, stop, n) {
      if n in memo { assert Judges(ps, stop, n, memo[n]); }
    }
    forall n | n in failing ensures BlamesAlike(ps, stop, failing, n) {
      if Next(ps, stop, n).Some? { assert Agrees(memo, n, Next(ps, stop, n).value); }
    }
  }

  // ----- the sweep --------------------------------------------------------------------------

  // `x` is `root` or a source node somewhere below it.
  ghost predicate Below(ps: F.Parents, root: string, x: string) {
    x in ps && ClimbsTo(ps, {}, x, root)
  }

  lemma ChildBelow(ps: F.Parents, root: string, v: string, c: string)
    requires Below(ps, root, v) && c in F.Children(ps, v)
    ensures Below(ps, root, c)
  {
    var k: nat :| Up(ps, {}, v, k) == Some(root);
    assert Next(ps, {}, c) == Some(v);
    assert Up(ps, {}, c, k + 1) == Up(ps, {}, v, k);
  }

  ghost predicate KidsCovered(ps: F.Parents, v: string, covered: set<string>) {
    F.Children(ps, v) <= covered
  }

  // Every child of a visited node is visited or waits on the stack.
  ghost predicate SearchOpen(ps: F.Parents, visited: set<string>, stack: seq<string>) {
    forall v :: v in visited ==> KidsCovered(ps, v, visited + Elems(stack))
  }

  lemma {:induction false} ClosedSearchComplete(ps: F.Parents, root: string, visited: set<string>, x: string, k: nat)
    requires SearchOpen(ps, visited, []) && root in visited && x in ps && Up(ps, {}, x, k) == Some(root)
    ensures x in visited
    decreases k
  {
    if k == 0 {
    } else {
      var p := Next(ps, {}, x).value;
      ClosedSearchComplete(ps, root, visited, p, k - 1);
      assert KidsCovered(ps, p, visited + Elems([]));
      assert x in F.Children(ps, p);
    }
  }

  ghost predicate AllBelow(ps: F.Parents, root: string, xs: set<string>) {
    forall x :: x in xs ==> Below(ps, root, x)
  }

  ghost predicate SearchInv(ps: F.Parents, root: string, visited: set<string>, result: seq<string>, stack: seq<string>)
  {
    && root in visited && visited <= ps.Keys
    && NoDup(result) && Elems(result) == visited - {root}
    && AllBelow(ps, root, visited + Elems(stack)) && SearchOpen(ps, visited, stack)
  }

  lemma SearchStart(ps: F.Parents, root: string, stack: seq<string>)
    requires root in ps && Elems(stack) == F.Children(ps, root)
    ensures SearchInv(ps, root, {root}, [], stack)
  {
    assert Up(ps, {}, root, 0) == Some(root);
    forall x | x in {root} + Elems(stack) ensures Below(ps, root, x) {
      if x != root { ChildBelow(ps, root, root, x); }
    }
    assert KidsCovered(ps, root, {root} + Elems(stack));
  }

  lemma SearchSkip(ps: F.Parents, root: string, visited: set<string>, result: seq<string>, stack: seq<string>,
      rest: seq<string>, x: string)
    requires SearchInv(ps, root, visited, result, stack) && stack == rest + [x] && x in visited
    ensures SearchInv(ps, root, visited, result, rest)
  {
    assert visited + Elems(rest) == visited + Elems(stack);
    forall v | v in visited ensures KidsCovered(ps, v, visited + Elems(rest)) {
      assert KidsCovered(ps, v, visited + Elems(stack));
    }
  }

  lemma SearchVisit(ps: F.Parents, root: string, visited: set<string>, result: seq<string>, stack: seq<string>,
      rest: seq<string>, x: string, kids: seq<string>)
    requires SearchInv(ps, root, visited, result, stack) && stack == rest + [x] && x !in visited
    requires Elems(kids) == F.Children(ps, x)
    ensures SearchInv(ps, root, visited + {x}, result + [x], rest + kids)
  {
    var before, after := visited + Elems(stack), (visited + {x}) + Elems(rest + kids);
    assert x in Elems(stack);
    assert Below(ps, root, x);
    assert after == before + Elems(kids);
    forall c | c in after ensures Below(ps, root, c) {
      if c !in before { ChildBelow(ps, root, x, c); }
    }
    forall v | v in visited + {x} ensures KidsCovered(ps, v, after) {
      if v != x { assert KidsCovered(ps, v, before); }
    }
    NoDupConcat(result, [x]);
  }

  method ReversedKids(n: string, children: map<string, seq<string>>, ghost ps: F.Parents) returns (kids: seq<string>)
    requires n in ps && ChildIndex(ps, children)
    ensures Elems(kids) == F.Children(ps, n)
  {
    assert KidsSorted(ps, children, n);
    kids := Reversed(children[n]);
  }

  lemma TopIsNode(ps: F.Parents, root: string, visited: set<string>, result: seq<string>, stack: seq<string>)
    requires SearchInv(ps, root, visited, result, stack) && stack != []
    ensures Last(stack) in ps && stack == stack[..|stack| - 1] + [Last(stack)]
  {
    assert Last(stack) in visited + Elems(stack);
  }

  // Everything below `root`, found with an explicit stack even where chains close.
  method Descendants(root: string, children: map<string, seq<string>>, ghost ps: F.Parents)
    returns (result: seq<string>)
    requires root in ps && ChildIndex(ps, children)
    ensures NoDup(result)
    ensures forall x :: x in result <==> x != root && Below(ps, root, x)
  {
    result := [];
    var visited := {root};
    var stack := ReversedKids(root, children, ps);
    SearchStart(ps, root, stack);
    while stack != []
      invariant SearchInv(ps, root, visited, result, stack)
      decreases ps.Keys - visited, |stack|
    {
      var current, rest := Last(stack), stack[..|stack| - 1];
      TopIsNode(ps, root, visited, result, stack);
      if current in visited {
        SearchSkip(ps, root, visited, result, stack, rest, current);
        stack := rest;
      } else {
        var kids := ReversedKids(current, children, ps);
        SearchVisit(ps, root, visited, result, stack, rest, current, kids);
        visited := visited + {current};
        result := result + [current];
        stack := rest + kids;
      }
    }
    SearchEnd(ps, root, visited, result);
  }

  lemma SearchEnd(ps: F.Parents, root: string, visited: set<string>, result: seq<string>)
    requires SearchInv(ps, root, visited, result, [])
    ensures forall x :: x in result <==> x != root && Below(ps, root, x)
  {
    forall x ensures x in result <==> x != root && Below(ps, root, x) {
      assert x in result <==> x in Elems(result);
      if Below(ps, root, x) {
        var k: nat :| Up(ps, {}, x, k) == Some(root);
        ClosedSearchComplete(ps, root, visited, x, k);
      }
      if x in visited { assert x in visited + Elems([]); }
    }
  }

  // ----- what is dropped, and why --------------------------------------------------------------

  // Dropped: the node fails the climb, or some source node above it does.
  ghost predicate IsDropped(ps: F.Parents, stop: set<string>, n: string) {
    exists a :: Below(ps, a, n) && Fails(ps, stop, a)
  }

  // `v` repeats, for `d`, the failure of a node at or above it.
  ghost predicate Repeats(ps: F.Parents, failing: map<string, Verdict>, d: string, v: Verdict, r: string) {
    && r in failing && Below(ps, r, d) && v.nodeId == d && v.brokenAt == failing[r].brokenAt
    && (v.reason == Cycle <==> failing[r].reason == Cycle)
  }

  ghost predicate Sourced(ps: F.Parents, failing: map<string, Verdict>, d: string, v: Verdict) {
    && (exists r :: Repeats(ps, failing, d, v, r))
    && (if d in failing then v == failing[d] else v.reason != MissingParent)
  }

  // The sweep has handled every failing root outside `todo`.
  ghost predicate Swept(ps: F.Parents, failing: map<string, Verdict>, dropped: map<string, Verdict>, todo: set<string>)
  {
    && failing.Keys <= dropped.Keys
    && (forall d {:trigger dropped[d]} :: d in dropped ==> Sourced(ps, failing, d, dropped[d]))
    && (forall r, x :: r in failing && r !in todo && Below(ps, r, x) ==> x in dropped)
  }

  lemma SweepStart(ps: F.Parents, stop: set<string>, failing: map<string, Verdict>)
    requires IsFailures(ps, stop, failing)
    ensures Swept(ps, failing, failing, failing.Keys)
  {
    forall d | d in failing ensures Sourced(ps, failing, d, failing[d]) {
      assert Judges(ps, stop, d, Some(failing[d]));
      assert Up(ps, {}, d, 0) == Some(d);
      assert Repeats(ps, failing, d, failing[d], d);
    }
  }

  // Drops the listed nodes that are not dropped yet.
  method DropAll(ds: seq<string>, verdict: Verdict, dropped0: map<string, Verdict>)
    returns (dropped: map<string, Verdict>)
    ensures dropped.Keys == dropped0.Keys + Elems(ds)
    ensures forall d {:trigger dropped[d]} :: d in dropped ==>
      dropped[d] == if d in dropped0 then dropped0[d] else Inherited(d, verdict)
  {
    dropped := dropped0;
    for i := 0 to |ds|
      invariant dropped.Keys == dropped0.Keys + Elems(ds[..i])
      invariant forall d {:trigger dropped[d]} :: d in dropped ==>
        dropped[d] == if d in dropped0 then dropped0[d] else Inherited(d, verdict)
    {
      assert ds[..i + 1] == ds[..i] + [ds[i]];
      if ds[i] !in dropped {
        dropped := dropped[ds[i] := Inherited(ds[i], verdict)];
      }
    }
    assert ds[..|ds|] == ds;
  }

  lemma InheritedSourced(ps: F.Parents, failing: map<string, Verdict>, root: string, d: string)
    requires root in failing && d !in failing && Below(ps, root, d)
    ensures Sourced(ps, failing, d, Inherited(d, failing[root]))
  {
    assert Repeats(ps, failing, d, Inherited(d, failing[root]), root);
  }

  lemma SweepSources(ps: F.Parents, failing: map<string, Verdict>, dropped: map<string, Verdict>,
      after: map<string, Verdict>, root: string)
    requires failing.Keys <= dropped.Keys && root in failing
    requires forall d {:trigger dropped[d]} :: d in dropped ==> Sourced(ps, failing, d, dropped[d])
    requires forall d {:trigger after[d]} :: d in after ==>
      if d in dropped then after[d] == dropped[d] else Below(ps, root, d) && after[d] == Inherited(d, failing[root])
    ensures forall d {:trigger after[d]} :: d in after ==> Sourced(ps, failing, d, after[d])
  {
    forall d | d in after ensures Sourced(ps, failing, d, after[d]) {
      if d in dropped {
        assert Sourced(ps, failing, d, dropped[d]);
      } else {
        InheritedSourced(ps, failing, root, d);
      }
    }
  }

  lemma SweepStep(ps: F.Parents, failing: map<string, Verdict>, dropped: map<string, Verdict>,
      after: map<string, Verdict>, todo: set<string>, root: string, below: seq<string>)
    requires Swept(ps, failing, dropped, todo) && root in failing && root in todo
    requires forall x :: x in below <==> x != root && Below(ps, root, x)
    requires after.Keys == dropped.Keys + Elems(below)
    requires forall d {:trigger after[d]} ::
      d in after ==> after[d] == if d in dropped then dropped[d] else Inherited(d, failing[root])
    ensures Swept(ps, failing, after, todo - {root})
  {
    SweepSources(ps, failing, dropped, after, root);
    SweepCovers(ps, failing, dropped.Keys, after.Keys, todo, root, below);
  }

  lemma SweepCovers(ps: F.Parents, failing: map<string, Verdict>, dropped: set<string>, after: set<string>,
      todo: set<string>, root: string, below: seq<string>)
    requires failing.Keys <= dropped && root in failing && after == dropped + Elems(below)
    requires forall x :: x in below <==> x != root && Below(ps, root, x)
    requires forall r, x :: r in failing && r !in todo && Below(ps, r, x) ==> x in dropped
    ensures forall r, x :: r in failing && r !in todo - {root} && Below(ps, r, x) ==> x in after
  {
    forall r, x | r in failing && r !in todo - {root} && Below(ps, r, x) ensures x in after {
      if r == root && x != root { assert x in below; }
    }
  }

  // The order in which the failing roots are taken does not matter, so any is allowed.
  method Sweep(failing: map<string, Verdict>, children: map<string, seq<string>>, ghost ps: F.Parents,
      ghost stop: set<string>)
    returns (dropped: map<string, Verdict>)
    requires IsFailures(ps, stop, failing) && ChildIndex(ps, children)
    ensures Swept(ps, failing, dropped, {})
  {
    dropped := failing;
    var todo := failing.Keys;
    SweepStart(ps, stop, failing);
    while todo != {}
      invariant todo <= failing.Keys && Swept(ps, failing, dropped, todo)
    {
      var root :| root in todo;
      assert Fails(ps, stop, root);
      dropped := SweepRoot(failing, children, dropped, root, ps, todo);
      todo := todo - {root};
    }
  }

  method SweepRoot(failing: map<string, Verdict>, children: map<string, seq<string>>, dropped: map<string, Verdict>,
      root: string, ghost ps: F.Parents, ghost todo: set<string>)
    returns (after: map<string, Verdict>)
    requires ChildIndex(ps, children) && Swept(ps, failing, dropped, todo) && root in failing && root in todo
      && root in ps
    ensures Swept(ps, failing, after, todo - {root})
  {
    var below := Descendants(root, children, ps);
    after := DropAll(below, failing[root], dropped);
    SweepStep(ps, failing, dropped, after, todo, root, below);
  }

  lemma BlameStep(ps: F.Parents, stop: set<string>, failing: map<string, Verdict>, r: string, p: string)
    requires IsFailures(ps, stop, failing) && r in failing && Next(ps, {}, r) == Some(p)
    ensures p in failing && failing[p].brokenAt == failing[r].brokenAt
      && (failing[p].reason == Cycle <==> failing[r].reason == Cycle)
  {
    assert Fails(ps, stop, r);
    if Next(ps, stop, r).None? { EndHere(ps, stop, r); }
    assert Next(ps, stop, r) == Some(p);
    EndStep(ps, stop, r);
    assert BlamesAlike(ps, stop, failing, r);
    assert Judges(ps, stop, r, Some(failing[r]));
    assert Judges(ps, stop, p, Some(failing[p]));
  }

  // Above a failing node everything fails for the same reason and the same id.
  lemma {:induction false} SameBlame(ps: F.Parents, stop: set<string>, failing: map<string, Verdict>, r: string, k: nat)
    requires IsFailures(ps, stop, failing) && r in failing && Up(ps, {}, r, k).Some?
    ensures var a := Up(ps, {}, r, k).value;
      a in failing && failing[a].brokenAt == failing[r].brokenAt
        && (failing[a].reason == Cycle <==> failing[r].reason == Cycle)
    decreases k
  {
    if k == 0 {
    } else {
      var p := Next(ps, {}, r).value;
      BlameStep(ps, stop, failing, r, p);
      SameBlame(ps, stop, failing, p, k - 1);
    }
  }

  lemma OneBlamePerChain(ps: F.Parents, stop: set<string>, failing: map<string, Verdict>, x: string, r: string,
      q: string)
    requires IsFailures(ps, stop, failing) && r in failing && q in failing && Below(ps, r, x) && Below(ps, q, x)
    ensures failing[r].brokenAt == failing[q].brokenAt && (failing[r].reason == Cycle <==> failing[q].reason == Cycle)
  {
    ChainMeets(ps, x, r, q);
    if k: nat :| Up(ps, {}, r, k) == Some(q) {
      SameBlame(ps, stop, failing, r, k);
    } else {
      var k: nat :| Up(ps, {}, q, k) == Some(r);
      SameBlame(ps, stop, failing, q, k);
    }
  }

  // Of two nodes above a third, one is above the other.
  lemma ChainMeets(ps: F.Parents, x: string, r: string, q: string)
    requires Below(ps, r, x) && Below(ps, q, x)
    ensures ClimbsTo(ps, {}, r, q) || ClimbsTo(ps, {}, q, r)
  {
    var j: nat :| Up(ps, {}, x, j) == Some(r);
    var k: nat :| Up(ps, {}, x, k) == Some(q);
    if j <= k { UpAdd(ps, {}, x, j, k - j); } else { UpAdd(ps, {}, x, k, j - k); }
  }

  // A verdict passes from a node to its source children.
  ghost predicate PassesDown(ps: F.Parents, dropped: map<string, Verdict>, q: string, d: string) {
    d in dropped && q in dropped && dropped[d].brokenAt == dropped[q].brokenAt
    && (dropped[d].reason == Cycle <==> dropped[q].reason == Cycle)
  }

  // What a verdict says is so.
  ghost predicate Truthful(ps: F.Parents, stop: set<string>, d: string, v: Verdict) {
    && d in ps && v.nodeId == d
    && (v.reason == MissingParent <==> Orphan(ps, stop, d))
    && (v.reason == Cycle ==> Below(ps, v.brokenAt, d) && OnCycle(ps, stop, v.brokenAt))
    && (v.reason != Cycle ==> v.brokenAt !in ps && v.brokenAt !in stop && exists top ::
      Below(ps, top, d) && top in ps && ps[top] == Some(v.brokenAt))
  }

  lemma DroppedExact(ps: F.Parents, stop: set<string>, failing: map<string, Verdict>, dropped: map<string, Verdict>)
    requires IsFailures(ps, stop, failing) && Swept(ps, failing, dropped, {})
    ensures ExactlyDropped(ps, stop, dropped) && dropped.Keys <= ps.Keys
  {
    forall n ensures n in dropped <==> IsDropped(ps, stop, n) {
      if n in dropped {
        assert Sourced(ps, failing, n, dropped[n]);
        var r :| Repeats(ps, failing, n, dropped[n], r);
        assert Below(ps, r, n) && Fails(ps, stop, r);
      }
      if a :| Below(ps, a, n) && Fails(ps, stop, a) { assert a in failing; }
    }
  }

  lemma VerdictsPassDown(ps: F.Parents, stop: set<string>, failing: map<string, Verdict>, dropped: map<string, Verdict>,
      q: string, d: string)
    requires IsFailures(ps, stop, failing) && Swept(ps, failing, dropped, {})
    requires d in F.Children(ps, q) && q in dropped
    ensures PassesDown(ps, dropped, q, d)
  {
    assert Sourced(ps, failing, q, dropped[q]);
    var rq :| Repeats(ps, failing, q, dropped[q], rq);
    ChildBelow(ps, rq, q, d);
    assert Sourced(ps, failing, d, dropped[d]);
    var rd :| Repeats(ps, failing, d, dropped[d], rd);
    OneBlamePerChain(ps, stop, failing, d, rd, rq);
  }

  lemma {:induction false} UpLoosen(ps: F.Parents, stop: set<string>, n: string, k: nat)
    requires Up(ps, stop, n, k).Some?
    ensures Up(ps, {}, n, k) == Up(ps, stop, n, k)
    decreases k
  {
    if k == 0 {
    } else {
      UpLoosen(ps, stop, Next(ps, stop, n).value, k - 1);
    }
  }

  lemma BelowTrans(ps: F.Parents, stop: set<string>, a: string, r: string, d: string)
    requires Below(ps, r, d) && ClimbsTo(ps, stop, r, a)
    ensures Below(ps, a, d)
  {
    var j: nat :| Up(ps, {}, d, j) == Some(r);
    var k: nat :| Up(ps, stop, r, k) == Some(a);
    UpLoosen(ps, stop, r, k);
    UpAdd(ps, {}, d, j, k);
  }

  // The top of a broken climb.
  lemma BrokenTop(ps: F.Parents, stop: set<string>, r: string, d: string, absent: string)
    requires Below(ps, r, d) && r in ps && End(ps, stop, r) == BrokenAt(absent)
    ensures absent !in ps && absent !in stop && exists top :: Below(ps, top, d) && top in ps && ps[top] == Some(absent)
  {
    var k: nat :| HaltsAfter(ps, stop, r, k);
    EndIs(ps, stop, r, k);
    UpIn(ps, stop, r, k);
    var top := Up(ps, stop, r, k).value;
    BelowTrans(ps, stop, top, r, d);
    assert Below(ps, top, d) && ps[top] == Some(absent);
  }

  lemma OrphanFails(ps: F.Parents, stop: set<string>, d: string)
    requires d in ps && Orphan(ps, stop, d)
    ensures Fails(ps, stop, d)
  {
    EndHere(ps, stop, d);
  }

  // A judged failure read at a node below it.
  lemma JudgedBelow(ps: F.Parents, stop: set<string>, r: string, d: string, v: Verdict)
    requires Below(ps, r, d) && Judges(ps, stop, r, Some(v))
    ensures v.reason == Cycle ==> Below(ps, v.brokenAt, d) && OnCycle(ps, stop, v.brokenAt)
    ensures v.reason != Cycle ==>
      v.brokenAt !in ps && v.brokenAt !in stop && exists top ::
        Below(ps, top, d) && top in ps && ps[top] == Some(v.brokenAt)
  {
    if v.reason == Cycle {
      BelowTrans(ps, stop, v.brokenAt, r, d);
    } else {
      BrokenTop(ps, stop, r, d, v.brokenAt);
    }
  }

  lemma MissingMeansOrphan(ps: F.Parents, stop: set<string>, failing: map<string, Verdict>,
      dropped: map<string, Verdict>, d: string)
    requires IsFailures(ps, stop, failing) && Swept(ps, failing, dropped, {}) && d in dropped && d in ps
    ensures dropped[d].reason == MissingParent <==> Orphan(ps, stop, d)
  {
    assert Sourced(ps, failing, d, dropped[d]);
    if d in failing {
      assert Judges(ps, stop, d, Some(failing[d]));
    }
    if Orphan(ps, stop, d) { OrphanFails(ps, stop, d); }
  }

  lemma VerdictsTruthful(ps: F.Parents, stop: set<string>, failing: map<string, Verdict>, dropped: map<string, Verdict>,
      d: string)
    requires IsFailures(ps, stop, failing) && Swept(ps, failing, dropped, {}) && d in dropped
    ensures Truthful(ps, stop, d, dropped[d])
  {
    assert Sourced(ps, failing, d, dropped[d]);
    var r :| Repeats(ps, failing, d, dropped[d], r);
    assert Judges(ps, stop, r, Some(failing[r]));
    JudgedBelow(ps, stop, r, d, failing[r]);
    MissingMeansOrphan(ps, stop, failing, dropped, d);
  }

  ghost predicate ExactlyDropped(ps: F.Parents, stop: set<string>, dropped: map<string, Verdict>) {
    forall n :: n in dropped <==> IsDropped(ps, stop, n)
  }

  ghost predicate AllPass(ps: F.Parents, dropped: map<string, Verdict>) {
    forall q, d :: q in dropped && d in F.Children(ps, q) ==> PassesDown(ps, dropped, q, d)
  }

  ghost predicate AllTrue(ps: F.Parents, stop: set<string>, dropped: map<string, Verdict>) {
    forall d {:trigger dropped[d]} :: d in dropped ==> Truthful(ps, stop, d, dropped[d])
  }

  // What the result must be.
  ghost predicate IsAnchoring(ps: F.Parents, stop: set<string>, r: AnchoringResult) {
    && r.anchoredIds + r.dropped.Keys == ps.Keys && r.anchoredIds !! r.dropped.Keys
    && ExactlyDropped(ps, stop, r.dropped) && AllPass(ps, r.dropped) && AllTrue(ps, stop, r.dropped)
  }

  lemma AllPassDown(ps: F.Parents, stop: set<string>, failing: map<string, Verdict>, dropped: map<string, Verdict>)
    requires IsFailures(ps, stop, failing) && Swept(ps, failing, dropped, {})
    ensures AllPass(ps, dropped)
  {
    forall q, d | q in dropped && d in F.Children(ps, q) ensures PassesDown(ps, dropped, q, d) {
      VerdictsPassDown(ps, stop, failing, dropped, q, d);
    }
  }

  lemma AllTruthful(ps: F.Parents, stop: set<string>, failing: map<string, Verdict>, dropped: map<string, Verdict>)
    requires IsFailures(ps, stop, failing) && Swept(ps, failing, dropped, {})
    ensures AllTrue(ps, stop, dropped)
  {
    forall d | d in dropped ensures Truthful(ps, stop, d, dropped[d]) {
      VerdictsTruthful(ps, stop, failing, dropped, d);
    }
  }

  lemma Partitions(all: set<string>, some: set<string>)
    requires some <= all
    ensures (all - some) + some == all && (all - some) !! some
  {}

  // Anchored and dropped partition the source ids; a node is dropped exactly when
  // it or a source node above it fails the climb; dropped is closed under source
  // children, verdicts pass down unchanged, and every verdict is truthful.
  method AnchorSourceNodes(nodes: seq<SourceNode>, targetIds: set<string>) returns (r: AnchoringResult)
    ensures IsAnchoring(FirstParents(nodes), targetIds, r)
  {
    var parentById := DeduplicateFirst(nodes);
    var children := BuildChildren(parentById);
    var failing := JudgeAll(parentById, targetIds);
    var dropped := Sweep(failing, children, parentById, targetIds);
    DroppedExact(parentById, targetIds, failing, dropped);
    AllPassDown(parentById, targetIds, failing, dropped);
    AllTruthful(parentById, targetIds, failing, dropped);
    var anchoredIds := parentById.Keys - dropped.Keys;
    Partitions(parentById.Keys, dropped.Keys);
    return AnchoringResult(anchoredIds, dropped);
  }

  // ----- laws ---------------------------------------------------------------------------------

  // More targets never drop a node that was anchored.
  lemma MoreTargetsKeepAnchored(ps: F.Parents, stop: set<string>, more: set<string>, n: string)
    requires stop <= more && IsDropped(ps, more, n)
    ensures IsDropped(ps, stop, n)
  {
    var a :| Below(ps, a, n) && Fails(ps, more, a);
    if !Fails(ps, stop, a) {
      var k: nat :| HaltsAfter(ps, stop, a, k);
      EndIs(ps, stop, a, k);
      MoreStopsAnchor(ps, stop, more, a, k);
    }
  }

  // The climb as the contract words it (root, target or anchored parent) and the
  // code agree exactly when no node hangs from a target that is itself a failing
  // source node; such a node passes the climb and is swept away all the same.
  lemma SweepAddsNothingIff(ps: F.Parents, stop: set<string>)
    ensures (forall n :: IsDropped(ps, stop, n) <==> Fails(ps, stop, n))
      <==> (forall n :: n in ps && ps[n].Some? && ps[n].value in stop ==> !Fails(ps, stop, ps[n].value))
  {
    if n :| n in ps && ps[n].Some? && ps[n].value in stop && Fails(ps, stop, ps[n].value) {
      EndHere(ps, stop, n);
      assert Next(ps, {}, n) == ps[n];
      assert Up(ps, {}, n, 1) == Up(ps, {}, ps[n].value, 0);
      assert Below(ps, ps[n].value, n);
      assert IsDropped(ps, stop, n) && !Fails(ps, stop, n);
    } else {
      forall n ensures IsDropped(ps, stop, n) <==> Fails(ps, stop, n) {
        if Fails(ps, stop, n) {
          assert Up(ps, {}, n, 0) == Some(n);
          assert Below(ps, n, n);
        }
        if a :| Below(ps, a, n) && Fails(ps, stop, a) {
          var k: nat :| Up(ps, {}, n, k) == Some(a);
          FailureReaches(ps, stop, n, a, k);
        }
      }
    }
  }

  lemma {:induction false} FailureReaches(ps: F.Parents, stop: set<string>, n: string, a: string, k: nat)
    requires forall n :: n in ps && ps[n].Some? && ps[n].value in stop ==> !Fails(ps, stop, ps[n].value)
    requires n in ps && Up(ps, {}, n, k) == Some(a) && Fails(ps, stop, a)
    ensures Fails(ps, stop, n)
    decreases k
  {
    if k == 0 {
    } else {
      FailureReaches(ps, stop, Next(ps, {}, n).value, a, k - 1);
      EndStep(ps, stop, n);
    }
  }

  // A node hanging from target "x", where "x" is also a source node with a missing
  // parent: it passes the climb and is dropped.
  lemma SweepDropsTargetChild()
    ensures var ps := FirstParents([SourceNode("x", Some("gone"), ""), SourceNode("y", Some("x"), "")]);
      !Fails(ps, {"x"}, "y") && IsDropped(ps, {"x"}, "y")
  {
    var nodes := [SourceNode("x", Some("gone"), ""), SourceNode("y", Some("x"), "")];
    assert nodes[..1] == [nodes[0]] && [nodes[0]][..0] == [];
    assert FirstParents([nodes[0]]) == map["x" := Some("gone")];
    var ps := FirstParents(nodes);
    assert "y" != "x" && ps == FirstParents([nodes[0]])["y" := Some("x")];
    EndHere(ps, {"x"}, "x");
    EndHere(ps, {"x"}, "y");
    assert Up(ps, {}, "y", 1) == Up(ps, {}, "x", 0);
    assert Below(ps, "x", "y");
  }
}
