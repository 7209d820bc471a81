// Validation of target hierarchy rows and assembly of the target topology.
// Source: connector/domain/dependency_tree/target_builder.py
module TargetBuilder {
  import opened Basics
  import opened PyText
  import Digraph
  import F = Forest
  import Kahn
  import opened TopologySnapshot

  datatype Row = Row(nodeId: string, parentId: Option<string>, rowLabel: string)

  datatype Diagnostic = DuplicateNode(nodeId: string) | ParentMissing(nodeId: string, parentId: string) | CycleDetected

  // ----- what the rows say -------------------------------------------------------

  ghost predicate DistinctIds(rows: seq<Row>) {
    forall i, j :: 0 <= i < j < |rows| ==> rows[i].nodeId != rows[j].nodeId
  }

  ghost predicate ParentsListed(rows: seq<Row>) {
    forall r :: r in rows && r.parentId.Some? ==> exists q :: q in rows && q.nodeId == r.parentId.value
  }

  // The first row of each id, as a parent map.
  function FirstParents(rows: seq<Row>): F.Parents {
    if rows == [] then map[] else
      var ps := FirstParents(rows[..|rows| - 1]);
      if Last(rows).nodeId in ps then ps else ps[Last(rows).nodeId := Last(rows).parentId]
  }

  lemma {:induction false} FirstParentsKeys(rows: seq<Row>)
    ensures forall n :: n in FirstParents(rows) <==> exists r :: r in rows && r.nodeId == n
  {
    if rows == [] {
    } else {
      FirstParentsKeys(rows[..|rows| - 1]);
      assert rows == rows[..|rows| - 1] + [Last(rows)];
    }
  }

  // No row's parents lead back to it.
  ghost predicate ParentsAcyclic(rows: seq<Row>) {
    !Digraph.Cyclic(F.ParentGraph(FirstParents(rows)))
  }

  ghost function DuplicateErrors(rows: seq<Row>): seq<Diagnostic> {
    if rows == [] then [] else
      DuplicateErrors(rows[..|rows| - 1]) +
      if Last(rows).nodeId in FirstParents(rows[..|rows| - 1]) then [DuplicateNode(Last(rows).nodeId)] else []
  }

  ghost function MissingErrors(names: seq<string>, ps: F.Parents): seq<Diagnostic>
    requires forall n :: n in names ==> n in ps
  {
    if names == [] then [] else
      var n := Last(names);
      assert n in names;
      MissingErrors(names[..|names| - 1], ps) +
      if ps[n].Some? && ps[n].value !in ps then [ParentMissing(n, ps[n].value)] else []
  }

  function Ids(rows: seq<Row>): (ids: seq<string>)
    ensures |ids| == |rows| && forall i :: 0 <= i < |rows| ==> ids[i] == rows[i].nodeId
  {
    seq(|rows|, i requires 0 <= i < |rows| => rows[i].nodeId)
  }

  // A row list has distinct ids when its front has and the last id is new.
  lemma DistinctStep(rows: seq<Row>)
    requires rows != []
    ensures DistinctIds(rows) <==>
      DistinctIds(rows[..|rows| - 1]) && Last(rows).nodeId !in FirstParents(rows[..|rows| - 1])
  {
    var front, id := rows[..|rows| - 1], Last(rows).nodeId;
    FirstParentsKeys(front);
    if id in FirstParents(front) {
      var q :| q in front && q.nodeId == id;
      var i :| 0 <= i < |front| && front[i] == q;
      assert rows[i].nodeId == rows[|rows| - 1].nodeId;
    } else {
      assert forall i :: 0 <= i < |front| ==> front[i] in front && rows[i].nodeId != id;
    }
    if DistinctIds(rows) {
      assert forall i, j :: 0 <= i < j < |front| ==> rows[i].nodeId != rows[j].nodeId;
    }
  }

  lemma {:induction false} DuplicatesReported(rows: seq<Row>)
    ensures DuplicateErrors(rows) == [] <==> DistinctIds(rows)
  {
    if rows == [] {
    } else {
      DuplicatesReported(rows[..|rows| - 1]);
      DistinctStep(rows);
    }
  }

  lemma {:induction false} MissingReported(names: seq<string>, ps: F.Parents)
    requires forall n :: n in names ==> n in ps
    ensures MissingErrors(names, ps) == [] <==> forall n :: n in names && ps[n].Some? ==> ps[n].value in ps
  {
    if names == [] {
    } else {
      MissingReported(names[..|names| - 1], ps);
      assert names == names[..|names| - 1] + [Last(names)];
    }
  }

  // With distinct ids every row is the first of its id.
  lemma {:induction false} RowsAreFirst(rows: seq<Row>)
    requires DistinctIds(rows)
    ensures forall r :: r in rows ==> r.nodeId in FirstParents(rows) && FirstParents(rows)[r.nodeId] == r.parentId
  {
    if rows == [] {
    } else {
      var front := rows[..|rows| - 1];
      DistinctStep(rows);
      RowsAreFirst(front);
      assert rows == front + [Last(rows)];
    }
  }

  lemma ParentsKnownMeans(rows: seq<Row>)
    requires DistinctIds(rows)
    ensures F.ParentsKnown(FirstParents(rows)) <==> ParentsListed(rows)
  {
    RowsAreFirst(rows);
    FirstParentsKeys(rows);
    var ps := FirstParents(rows);
    if F.ParentsKnown(ps) {
      forall r | r in rows && r.parentId.Some? ensures exists q :: q in rows && q.nodeId == r.parentId.value {
        assert F.ParentKnown(ps, r.nodeId) && ps[r.nodeId] == r.parentId;
      }
    }
  }

  // ----- the loops ------------------------------------------------------------------

  ghost predicate NodesFit(nodes: map<string, TopologyNode>, ps: F.Parents) {
    nodes.Keys == ps.Keys && forall n :: n in nodes ==> nodes[n].nodeId == n && nodes[n].parentId == ps[n]
  }

  // The row's label is both names of its node.
  ghost predicate RowStored(nodes: map<string, TopologyNode>, r: Row) {
    && r.nodeId in nodes
    && nodes[r.nodeId].nodeId == r.nodeId && nodes[r.nodeId].parentId == r.parentId
    && nodes[r.nodeId].displayName == r.rowLabel && nodes[r.nodeId].canonicalName == r.rowLabel
  }

  // What the first loop holds after the given rows.
  ghost predicate Ingested(rows: seq<Row>, nodes: map<string, TopologyNode>, ps: F.Parents, names: seq<string>,
      errors: seq<Diagnostic>)
  {
    && ps == FirstParents(rows) && NodesFit(nodes, ps)
    && names == Dedup(Ids(rows)) && Elems(names) == ps.Keys
    && errors == DuplicateErrors(rows)
    && (DistinctIds(rows) ==> forall r :: r in rows ==> RowStored(nodes, r))
  }

  function NodeOf(row: Row): TopologyNode {
    TopologyNode(row.nodeId, row.parentId, row.rowLabel, row.rowLabel)
  }

  lemma IngestRepeat(rows: seq<Row>, nodes: map<string, TopologyNode>, ps: F.Parents, names: seq<string>,
      errors: seq<Diagnostic>)
    requires rows != [] && Ingested(rows[..|rows| - 1], nodes, ps, names, errors)
    requires Last(rows).nodeId in nodes
    ensures Ingested(rows, nodes, ps, names, errors + [DuplicateNode(Last(rows).nodeId)])
  {
    DistinctStep(rows);
    assert Ids(rows)[..|rows| - 1] == Ids(rows[..|rows| - 1]);
  }

  lemma IngestNew(rows: seq<Row>, nodes: map<string, TopologyNode>, ps: F.Parents, names: seq<string>,
      errors: seq<Diagnostic>)
    requires rows != [] && Ingested(rows[..|rows| - 1], nodes, ps, names, errors)
    requires Last(rows).nodeId !in nodes
    ensures Ingested(rows, nodes[Last(rows).nodeId := NodeOf(Last(rows))],
                     ps[Last(rows).nodeId := Last(rows).parentId], names + [Last(rows).nodeId], errors)
  {
    var front, row := rows[..|rows| - 1], Last(rows);
    DistinctStep(rows);
    NodeAdded(nodes, ps, row);
    NameAdded(rows, names, ps);
    if DistinctIds(rows) {
      assert rows == front + [row];
      RowsAdded(front, nodes, row);
    }
  }

  lemma NameAdded(rows: seq<Row>, names: seq<string>, ps: F.Parents)
    requires rows != [] && names == Dedup(Ids(rows[..|rows| - 1])) && Elems(names) == ps.Keys
    requires Last(rows).nodeId !in ps
    ensures names + [Last(rows).nodeId] == Dedup(Ids(rows))
    ensures Elems(names + [Last(rows).nodeId]) == ps.Keys + {Last(rows).nodeId}
  {
    assert Ids(rows)[..|rows| - 1] == Ids(rows[..|rows| - 1]);
    assert Last(rows).nodeId !in Elems(names);
  }

  lemma NodeAdded(nodes: map<string, TopologyNode>, ps: F.Parents, row: Row)
    requires NodesFit(nodes, ps)
    ensures NodesFit(nodes[row.nodeId := NodeOf(row)], ps[row.nodeId := row.parentId])
  {}

  lemma RowsAdded(front: seq<Row>, nodes: map<string, TopologyNode>, row: Row)
    requires row.nodeId !in nodes && forall r :: r in front ==> RowStored(nodes, r)
    ensures forall r :: r in front + [row] ==> RowStored(nodes[row.nodeId := NodeOf(row)], r)
  {
    forall r | r in front + [row] ensures RowStored(nodes[row.nodeId := NodeOf(row)], r) {
      if r != row { assert RowStored(nodes, r); }
    }
  }

  method IngestRows(rows: seq<Row>)
    returns (nodes: map<string, TopologyNode>, parentById: F.Parents, names: seq<string>, errors: seq<Diagnostic>)
    ensures Ingested(rows, nodes, parentById, names, errors)
  {
    nodes, parentById, names, errors := map[], map[], [], [];
    for i := 0 to |rows|
      invariant Ingested(rows[..i], nodes, parentById, names, errors)
    {
      var row := rows[i];
      assert rows[..i + 1][..i] == rows[..i] && Last(rows[..i + 1]) == row;
      if row.nodeId in nodes {
        IngestRepeat(rows[..i + 1], nodes, parentById, names, errors);
        errors := errors + [DuplicateNode(row.nodeId)];
      } else {
        IngestNew(rows[..i + 1], nodes, parentById, names, errors);
        nodes := nodes[row.nodeId := NodeOf(row)];
        parentById := parentById[row.nodeId := row.parentId];
        names := names + [row.nodeId];
      }
    }
    assert rows[..|rows|] == rows;
  }

  ghost function ChildrenAmong(names: seq<string>, ps: F.Parents, n: string): set<string> {
    set c | c in names && c in ps && ps[c] == Some(n)
  }

  // The child sets are right as far as these nodes go.
  ghost predicate LinkedSoFar(children: map<string, set<string>>, names: seq<string>, ps: F.Parents) {
    children.Keys == ps.Keys && forall n {:trigger children[n]} ::
      n in children ==> children[n] == ChildrenAmong(names, ps, n)
  }

  lemma LinkStep(children: map<string, set<string>>, names: seq<string>, ps: F.Parents, c: string)
    requires LinkedSoFar(children, names, ps) && c in ps
    ensures ps[c].Some? && ps[c].value in ps ==>
      LinkedSoFar(children[ps[c].value := children[ps[c].value] + {c}], names + [c], ps)
    ensures ps[c].None? || ps[c].value !in ps ==> LinkedSoFar(children, names + [c], ps)
  {
    forall n | n in ps
      ensures ChildrenAmong(names + [c], ps, n) == ChildrenAmong(names, ps, n) + if ps[c] == Some(n) then {c} else {}
    {}
  }

  lemma MissingSnoc(names: seq<string>, ps: F.Parents, c: string)
    requires c in ps && forall n :: n in names ==> n in ps
    ensures MissingErrors(names + [c], ps)
      == MissingErrors(names, ps) + if ps[c].Some? && ps[c].value !in ps then [ParentMissing(c, ps[c].value)] else []
  {
    assert (names + [c])[..|names|] == names;
  }

  method LinkChildren(names: seq<string>, parentById: F.Parents)
    returns (childrenById: map<string, set<string>>, errors: seq<Diagnostic>)
    requires NoDup(names) && Elems(names) == parentById.Keys
    ensures errors == MissingErrors(names, parentById)
    ensures childrenById.Keys == parentById.Keys
    ensures forall n :: n in childrenById ==> childrenById[n] == F.Children(parentById, n)
  {
    childrenById := map n | n in names :: {};
    errors := [];
    for i := 0 to |names|
      invariant errors == MissingErrors(names[..i], parentById)
      invariant LinkedSoFar(childrenById, names[..i], parentById)
    {
      var n := names[i];
      assert names[..i + 1] == names[..i] + [n];
      LinkStep(childrenById, names[..i], parentById, n);
      MissingSnoc(names[..i], parentById, n);
      match parentById[n]
      case None =>
      case Some(p) =>
        if p !in parentById {
          errors := errors + [ParentMissing(n, p)];
        } else {
          childrenById := childrenById[p := childrenById[p] + {n}];
        }
    }
    assert names[..|names|] == names;
    AllLinked(childrenById, names, parentById);
  }

  lemma AllLinked(children: map<string, set<string>>, names: seq<string>, ps: F.Parents)
    requires LinkedSoFar(children, names, ps) && Elems(names) == ps.Keys
    ensures forall n :: n in children ==> children[n] == F.Children(ps, n)
  {
    forall n | n in children ensures children[n] == F.Children(ps, n) {
      assert ChildrenAmong(names, ps, n) == F.Children(ps, n);
    }
  }

  // A parent that is no node becomes one, without a parent of its own.
  function WithAbsent(names: seq<string>, ps: F.Parents): Digraph.Graph {
    map n | n in names :: Digraph.Succ(F.ParentGraph(ps), n)
  }

  // Stands for the check `_has_cycle` delegates to `graphlib`.
  method HasCycle(names: seq<string>, parentById: F.Parents) returns (b: bool)
    requires NoDup(names) && Elems(names) == parentById.Keys
    ensures b <==> Digraph.Cyclic(F.ParentGraph(parentById))
  {
    var nodes := names;
    for i := 0 to |names|
      invariant NoDup(nodes) && parentById.Keys <= Elems(nodes)
      invariant forall j :: 0 <= j < i && parentById[names[j]].Some? ==> parentById[names[j]].value in nodes
    {
      var parent := parentById[names[i]];
      if parent.Some? && parent.value !in nodes {
        nodes := nodes + [parent.value];
      }
    }
    var graph := WithAbsent(nodes, parentById);
    assert forall n :: n in names <==> n in parentById by { assert Elems(names) == parentById.Keys; }
    SameCycles(nodes, parentById);
    WithAbsentClosed(nodes, parentById);
    var order := Kahn.TopologicalOrder(nodes, graph);
    return order.None?;
  }

  lemma WithAbsentClosed(nodes: seq<string>, ps: F.Parents)
    requires forall n :: n in ps && ps[n].Some? ==> ps[n].value in nodes
    ensures WithAbsent(nodes, ps).Keys == Elems(nodes) && Digraph.Closed(WithAbsent(nodes, ps))
  {}

  lemma SameCycles(nodes: seq<string>, ps: F.Parents)
    requires ps.Keys <= Elems(nodes)
    ensures Digraph.Cyclic(WithAbsent(nodes, ps)) <==> Digraph.Cyclic(F.ParentGraph(ps))
  {
    var g, h := WithAbsent(nodes, ps), F.ParentGraph(ps);
    forall n ensures Digraph.Succ(g, n) == Digraph.Succ(h, n) { assert n in ps.Keys ==> n in Elems(nodes); }
    forall p ensures Digraph.IsCycle(g, p) <==> Digraph.IsCycle(h, p) {}
  }

  ghost predicate Acceptable(rows: seq<Row>) {
    DistinctIds(rows) && ParentsListed(rows) && ParentsAcyclic(rows)
  }

  // The snapshot holds exactly the rows.
  ghost predicate HoldsRows(s: Snapshot, rows: seq<Row>) {
    && (forall n :: n in s.nodesById <==> exists r :: r in rows && r.nodeId == n)
    && (forall r :: r in rows ==> RowStored(s.nodesById, r))
  }

  // The canonical path of a row's node is its parent's path and its own label.
  ghost predicate PathsFollowRows(s: Snapshot, rows: seq<Row>)
    requires s.WellFormed()
  {
    forall r :: r in rows ==> PathFollowsRow(s, r)
  }

  ghost predicate PathFollowsRow(s: Snapshot, r: Row)
    requires s.WellFormed()
  {
    && r.nodeId in s.nodesById && (r.parentId.Some? ==> r.parentId.value in s.nodesById)
    && s.PathOf(r.nodeId) == (if r.parentId.Some? then s.PathOf(r.parentId.value) else []) + [r.rowLabel]
  }

  lemma PathsFollow(s: Snapshot, rows: seq<Row>)
    requires s.WellFormed() && HoldsRows(s, rows)
    ensures PathsFollowRows(s, rows)
  {
    forall r | r in rows ensures PathFollowsRow(s, r) {
      assert RowStored(s.nodesById, r);
      PathStep(s, r.nodeId);
    }
  }

  // ----- what the findings name --------------------------------------------------

  // The parent on record for an id is that of the first row with the id.
  lemma {:induction false} FirstParentsMeans(rows: seq<Row>, i: nat)
    requires i < |rows| && forall j :: 0 <= j < i ==> rows[j].nodeId != rows[i].nodeId
    ensures rows[i].nodeId in FirstParents(rows) && FirstParents(rows)[rows[i].nodeId] == rows[i].parentId
  {
    var front := rows[..|rows| - 1];
    if i < |front| {
      FirstParentsMeans(front, i);
    } else {
      FirstParentsKeys(front);
    }
  }

  ghost predicate OnTwoRows(rows: seq<Row>, id: string) {
    exists i, j :: 0 <= i < j < |rows| && rows[i].nodeId == id && rows[j].nodeId == id
  }

  // One row more: an id is on two rows if it was, or if the new row has it and a row had it.
  lemma OnTwoRowsSnoc(front: seq<Row>, last: Row, id: string)
    ensures OnTwoRows(front + [last], id)
      <==> OnTwoRows(front, id) || (last.nodeId == id && exists r :: r in front && r.nodeId == id)
  {
    var rows := front + [last];
    if i, j :| 0 <= i < j < |rows| && rows[i].nodeId == id && rows[j].nodeId == id {
      if j < |front| { assert front[i].nodeId == id && front[j].nodeId == id; } else { assert front[i] in front; }
    }
    if i, j :| 0 <= i < j < |front| && front[i].nodeId == id && front[j].nodeId == id {
      assert rows[i].nodeId == id && rows[j].nodeId == id;
    }
    if last.nodeId == id {
      if r :| r in front && r.nodeId == id {
        var i :| 0 <= i < |front| && front[i] == r;
        assert rows[i].nodeId == id && rows[|front|].nodeId == id;
      }
    }
  }

  // A duplicate is reported exactly for the ids of two rows, once for each row too many.
  lemma {:induction false} DuplicateNamed(rows: seq<Row>, id: string)
    ensures DuplicateNode(id) in DuplicateErrors(rows) <==> OnTwoRows(rows, id)
    ensures |DuplicateErrors(rows)| + |FirstParents(rows)| == |rows|
  {
    if rows == [] {
    } else {
      var front, last := rows[..|rows| - 1], Last(rows);
      assert rows == front + [last];
      DuplicateNamed(front, id);
      FirstParentsKeys(front);
      OnTwoRowsSnoc(front, last, id);
    }
  }

  // A missing parent is reported exactly for the nodes whose first row names one that is no node.
  lemma {:induction false} MissingNamed(names: seq<string>, ps: F.Parents, n: string, p: string)
    requires forall m :: m in names ==> m in ps
    ensures ParentMissing(n, p) in MissingErrors(names, ps) <==> n in names && ps[n] == Some(p) && p !in ps
  {
    if names == [] {
    } else {
      MissingNamed(names[..|names| - 1], ps, n, p);
      assert names == names[..|names| - 1] + [Last(names)];
    }
  }

  ghost function Findings(rows: seq<Row>, names: seq<string>): seq<Diagnostic>
    requires forall n :: n in names ==> n in FirstParents(rows)
  {
    DuplicateErrors(rows) + MissingErrors(names, FirstParents(rows))
  }

  lemma FindingsMean(rows: seq<Row>, names: seq<string>)
    requires Elems(names) == FirstParents(rows).Keys
    ensures Findings(rows, names) == [] <==> DistinctIds(rows) && ParentsListed(rows)
    ensures Findings(rows, names) == [] ==> F.ParentsKnown(FirstParents(rows))
  {
    DuplicatesReported(rows);
    MissingReported(names, FirstParents(rows));
    if DistinctIds(rows) { ParentsKnownMeans(rows); }
    var ps := FirstParents(rows);
    assert forall n :: n in ps <==> n in names;
    if forall n :: n in names && ps[n].Some? ==> ps[n].value in ps {
      forall n | n in ps ensures F.ParentKnown(ps, n) {}
    }
    if F.ParentsKnown(ps) {
      forall n | n in names && ps[n].Some? ensures ps[n].value in ps { assert F.ParentKnown(ps, n); }
    }
  }

  lemma FrozenHoldsRows(rows: seq<Row>, nodes: map<string, TopologyNode>, ps: F.Parents,
      children: map<string, set<string>>, names: seq<string>, errors: seq<Diagnostic>)
    requires Ingested(rows, nodes, ps, names, errors) && DistinctIds(rows) && F.IsForest(ps)
    requires children.Keys == ps.Keys && forall n :: n in children ==> children[n] == F.Children(ps, n)
    ensures Frozen(nodes, ps, children).WellFormed() && HoldsRows(Frozen(nodes, ps, children), rows)
  {
    FirstParentsKeys(rows);
    FrozenWellFormed(nodes, ps, children);
  }

  // Rows are accepted exactly when their ids are distinct, their parents are
  // listed and no chain of parents closes; otherwise the snapshot is empty.
  method Build(rows: seq<Row>) returns (snapshot: Snapshot, errors: seq<Diagnostic>)
    ensures snapshot.WellFormed()
    ensures errors == [] <==> Acceptable(rows)
    ensures if Acceptable(rows) then HoldsRows(snapshot, rows) else snapshot == EMPTY
    ensures Acceptable(rows) ==> PathsFollowRows(snapshot, rows)
    ensures Elems(Dedup(Ids(rows))) == FirstParents(rows).Keys
    ensures errors ==
      if Findings(rows, Dedup(Ids(rows))) == [] && !ParentsAcyclic(rows) then [CycleDetected]
      else Findings(rows, Dedup(Ids(rows)))
  {
    var nodes, parentById, names, duplicates := IngestRows(rows);
    var childrenById, missing := LinkChildren(names, parentById);
    errors := duplicates + missing;
    FindingsMean(rows, names);
    EmptyWellFormed();
    if errors != [] {
      return EMPTY, errors;
    }
    var cyclic := HasCycle(names, parentById);
    if cyclic {
      return EMPTY, [CycleDetected];
    }
    F.ForestIffAcyclic(parentById);
    FrozenHoldsRows(rows, nodes, parentById, childrenById, names, duplicates);
    var frozen := FreezeChildren(childrenById);
    var roots := Sorted(F.Roots(parentById));
    snapshot := Snapshot(nodes, parentById, frozen, roots);
    PathsFollow(snapshot, rows);
  }
}
