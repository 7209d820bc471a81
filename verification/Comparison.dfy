// The ladder that compares a source path with candidate nodes.
// Source: connector/domain/dependency_tree/comparison.py
module Comparison {
  import opened Basics
  import F = Forest
  import opened TopologySnapshot

  type Path = seq<string>

  // All the comparison asks of a snapshot: the canonical path of each node.
  type PathMap = map<string, Path>

  ghost function PathsOf(s: Snapshot): (paths: PathMap)
    requires s.WellFormed()
    ensures paths.Keys == s.nodesById.Keys
  {
    map n | n in s.nodesById :: s.PathOf(n)
  }

  datatype Mode = ExactCanonicalPath | ExactLeafParentChain | ExactLeafRootDepth | Ambiguous | NoMatch

  datatype Reason = EmptySourceOrCandidates | ResolvedBy(mode: Mode) | AmbiguousOn(mode: Mode) | NoTopologyConfirmation

  datatype Rung = Rung(mode: Mode, matched: seq<string>)

  datatype Comparison = Comparison(matchedIds: seq<string>, mode: Mode, reason: Reason, candidates: seq<string>,
      rungs: seq<Rung>)
  {
    predicate IsAmbiguous() {
      mode == Ambiguous
    }

    function MatchedCandidateId(): Option<string> {
      if |matchedIds| == 1 then Some(matchedIds[0]) else None
    }
  }

  // `_candidate_matches_mode` on an already read path.
  predicate Matches(path: Path, source: Path, mode: Mode) {
    match mode
    case ExactCanonicalPath => path == source
    case ExactLeafParentChain => |source| >= 2 && |path| >= 2 && path[|path| - 2..] == source[|source| - 2..]
    case ExactLeafRootDepth =>
      source != [] && path != [] && Last(path) == Last(source) && path[0] == source[0] && |path| == |source|
    case _ => false
  }

  // ----- what each rung selects ------------------------------------------------------

  ghost predicate Known(paths: PathMap, candidates: seq<string>) {
    forall c :: c in candidates ==> c in paths
  }

  ghost predicate Selected(paths: PathMap, source: Path, c: string, mode: Mode)
  {
    c in paths && Matches(paths[c], source, mode)
  }

  ghost function Selection(paths: PathMap, source: Path, candidates: seq<string>, mode: Mode): (r: seq<string>)
    ensures forall c :: c in r <==> c in candidates && Selected(paths, source, c, mode)
  {
    if candidates == [] then [] else
      var front, c := candidates[..|candidates| - 1], Last(candidates);
      assert forall x :: x in candidates <==> x in front || x == c;
      Selection(paths, source, front, mode) + if Selected(paths, source, c, mode) then [c] else []
  }

  lemma {:induction false} SelectionNoDup(paths: PathMap, source: Path, candidates: seq<string>, mode: Mode)
    requires NoDup(candidates)
    ensures NoDup(Selection(paths, source, candidates, mode))
  {
    if candidates == [] {
    } else {
      var front := candidates[..|candidates| - 1];
      SelectionNoDup(paths, source, front, mode);
      assert Last(candidates) !in front;
    }
  }

  ghost function FirstHitFrom(paths: PathMap, source: Path, candidates: seq<string>, ladder: seq<Mode>, n: nat)
    : (i: nat)
    requires n <= |ladder|
    ensures n <= i <= |ladder|
    ensures i < |ladder| ==> Selection(paths, source, candidates, ladder[i]) != []
    ensures forall k :: n <= k < i ==> Selection(paths, source, candidates, ladder[k]) == []
    decreases |ladder| - n
  {
    if n == |ladder| || Selection(paths, source, candidates, ladder[n]) != [] then n
    else FirstHitFrom(paths, source, candidates, ladder, n + 1)
  }

  // The first rung that selects anything, or the length of the ladder.
  ghost function FirstHit(paths: PathMap, source: Path, candidates: seq<string>, ladder: seq<Mode>): nat {
    FirstHitFrom(paths, source, candidates, ladder, 0)
  }

  ghost function RungsOf(paths: PathMap, source: Path, candidates: seq<string>, ladder: seq<Mode>, n: nat): seq<Rung>
    requires n <= |ladder|
  {
    if n == 0 then [] else
      RungsOf(paths, source, candidates, ladder, n - 1)
        + [Rung(ladder[n - 1], Selection(paths, source, candidates, ladder[n - 1]))]
  }

  // The result the ladder stands for: decided by the first rung that selects
  // anything, ambiguous when it selects two or more.
  ghost function Decision(paths: PathMap, source: Path, candidateIds: seq<string>, ladder: seq<Mode>): Comparison {
    var distinct := Dedup(candidateIds);
    if source == [] || distinct == [] then Comparison([], NoMatch, EmptySourceOrCandidates, distinct, []) else
      var i := FirstHit(paths, source, distinct, ladder);
      if i == |ladder| then
        Comparison([], NoMatch, NoTopologyConfirmation, distinct, RungsOf(paths, source, distinct, ladder, i))
      else
        DecisionAt(paths, source, distinct, ladder, i)
  }

  ghost function DecisionAt(paths: PathMap, source: Path, distinct: seq<string>, ladder: seq<Mode>, i: nat): Comparison
    requires i < |ladder|
  {
    var mode, hit := ladder[i], Selection(paths, source, distinct, ladder[i]);
    var walked := RungsOf(paths, source, distinct, ladder, i + 1);
    if |hit| == 1 then Comparison(hit, mode, ResolvedBy(mode), distinct, walked)
    else Comparison(hit, Ambiguous, AmbiguousOn(mode), distinct, walked)
  }

  // ----- the loops -------------------------------------------------------------------

  method PathAt(s: Snapshot, c: string) returns (r: Result<Path, UnknownNode>)
    requires s.WellFormed()
    ensures r == if c in PathsOf(s) then Ok(PathsOf(s)[c]) else Err(UnknownNode(c))
  {
    r := s.CanonicalPath(c);
  }

  lemma SelectionStep(paths: PathMap, source: Path, candidates: seq<string>, mode: Mode, i: nat)
    requires i < |candidates|
    ensures Selection(paths, source, candidates[..i + 1], mode)
      == Selection(paths, source, candidates[..i], mode)
        + if Selected(paths, source, candidates[i], mode) then [candidates[i]] else []
    ensures Known(paths, candidates[..i + 1]) <==> Known(paths, candidates[..i]) && candidates[i] in paths
  {
    var now := candidates[..i + 1];
    assert now[..|now| - 1] == candidates[..i] && Last(now) == candidates[i];
    assert now == candidates[..i] + [candidates[i]];
  }

  method MatchCandidates(s: Snapshot, source: Path, candidates: seq<string>, mode: Mode)
    returns (r: Result<seq<string>, UnknownNode>)
    requires s.WellFormed()
    ensures r.Err? <==> !Known(PathsOf(s), candidates)
    ensures r.Ok? ==> r.value == Selection(PathsOf(s), source, candidates, mode)
    ensures r.Err? ==> r.error.nodeId in candidates && r.error.nodeId !in PathsOf(s)
  {
    ghost var paths := PathsOf(s);
    var matched := [];
    for i := 0 to |candidates|
      invariant Known(paths, candidates[..i])
      invariant matched == Selection(paths, source, candidates[..i], mode)
    {
      SelectionStep(paths, source, candidates, mode, i);
      var path := PathAt(s, candidates[i]);
      if path.Err? { return Err(path.error); }
      if Matches(path.value, source, mode) {
        matched := matched + [candidates[i]];
      }
    }
    assert candidates[..|candidates|] == candidates;
    return Ok(matched);
  }

  ghost predicate Missed(paths: PathMap, source: Path, candidates: seq<string>, ladder: seq<Mode>, i: nat) {
    i <= |ladder| && forall k :: 0 <= k < i ==> Selection(paths, source, candidates, ladder[k]) == []
  }

  lemma HitDecides(paths: PathMap, source: Path, candidateIds: seq<string>, ladder: seq<Mode>, i: nat)
    requires source != [] && Dedup(candidateIds) != [] && Missed(paths, source, Dedup(candidateIds), ladder, i)
    requires i < |ladder| && Selection(paths, source, Dedup(candidateIds), ladder[i]) != []
    ensures Decision(paths, source, candidateIds, ladder) == DecisionAt(paths, source, Dedup(candidateIds), ladder, i)
  {
    assert FirstHit(paths, source, Dedup(candidateIds), ladder) == i;
  }

  lemma MissDecides(paths: PathMap, source: Path, candidateIds: seq<string>, ladder: seq<Mode>)
    requires source != [] && Dedup(candidateIds) != [] && Missed(paths, source, Dedup(candidateIds), ladder, |ladder|)
    ensures Decision(paths, source, candidateIds, ladder) == Comparison([], NoMatch, NoTopologyConfirmation,
      Dedup(candidateIds), RungsOf(paths, source, Dedup(candidateIds), ladder, |ladder|))
  {
    assert FirstHit(paths, source, Dedup(candidateIds), ladder) == |ladder|;
  }

  lemma MissedStep(paths: PathMap, source: Path, candidates: seq<string>, ladder: seq<Mode>, i: nat)
    requires Missed(paths, source, candidates, ladder, i) && i < |ladder|
      && Selection(paths, source, candidates, ladder[i]) == []
    ensures Missed(paths, source, candidates, ladder, i + 1)
  {}

  // Fails only when some rung has to look at an unknown candidate; otherwise the
  // first rung with a non-empty selection decides.
  method Compare(s: Snapshot, source: Path, candidateIds: seq<string>, ladder: seq<Mode>)
    returns (r: Result<Comparison, UnknownNode>)
    requires s.WellFormed()
    ensures r.Err? <==> source != [] && ladder != [] && !Known(PathsOf(s), candidateIds)
    ensures r.Err? ==> r.error.nodeId in candidateIds && r.error.nodeId !in PathsOf(s)
    ensures r.Ok? ==> r.value == Decision(PathsOf(s), source, candidateIds, ladder)
  {
    var candidates := Dedup(candidateIds);
    assert Known(PathsOf(s), candidates) <==> Known(PathsOf(s), candidateIds);
    if source == [] || candidates == [] {
      return Ok(Comparison([], NoMatch, EmptySourceOrCandidates, candidates, []));
    }
    r := WalkLadder(s, source, candidateIds, candidates, ladder);
  }

  method WalkLadder(s: Snapshot, source: Path, ghost candidateIds: seq<string>, candidates: seq<string>,
      ladder: seq<Mode>)
    returns (r: Result<Comparison, UnknownNode>)
    requires s.WellFormed() && candidates == Dedup(candidateIds) && source != [] && candidates != []
    ensures r.Err? <==> ladder != [] && !Known(PathsOf(s), candidates)
    ensures r.Err? ==> r.error.nodeId in candidates && r.error.nodeId !in PathsOf(s)
    ensures r.Ok? ==> r.value == Decision(PathsOf(s), source, candidateIds, ladder)
  {
    ghost var paths := PathsOf(s);
    var rungs := [];
    for i := 0 to |ladder|
      invariant i > 0 ==> Known(paths, candidates)
      invariant Missed(paths, source, candidates, ladder, i) && rungs == RungsOf(paths, source, candidates, ladder, i)
    {
      var mode := ladder[i];
      var matched := MatchCandidates(s, source, candidates, mode);
      if matched.Err? { return Err(matched.error); }
      var ids := matched.value;
      rungs := rungs + [Rung(mode, ids)];
      if ids != [] { HitDecides(paths, source, candidateIds, ladder, i); }
      if |ids| == 1 {
        return Ok(Comparison(ids, mode, ResolvedBy(mode), candidates, rungs));
      }
      if |ids| > 1 {
        return Ok(Comparison(ids, Ambiguous, AmbiguousOn(mode), candidates, rungs));
      }
      MissedStep(paths, source, candidates, ladder, i);
    }
    MissDecides(paths, source, candidateIds, ladder);
    return Ok(Comparison([], NoMatch, NoTopologyConfirmation, candidates, rungs));
  }

  // The end of a path names the node and its parent.
  lemma PathEnd(s: Snapshot, c: string)
    requires s.WellFormed() && c in s.nodesById
    ensures s.PathOf(c) != [] && Last(s.PathOf(c)) == s.nodesById[c].canonicalName
    ensures |s.PathOf(c)| >= 2 <==> s.parentById[c].Some?
    ensures s.parentById[c].Some? ==>
      && s.parentById[c].value in s.nodesById
      && s.PathOf(c)[|s.PathOf(c)| - 2] == s.nodesById[s.parentById[c].value].canonicalName
  {
    PathStep(s, c);
    if s.parentById[c].Some? { PathStep(s, s.parentById[c].value); }
  }

  // Its start names the root, and its length is the depth and one.
  lemma PathStart(s: Snapshot, c: string)
    requires s.WellFormed() && c in s.nodesById
    ensures
      var up := F.PathToRoot(s.parentById, c);
      && |s.PathOf(c)| == |up| && Last(up) in s.nodesById
      && s.PathOf(c)[0] == s.nodesById[Last(up)].canonicalName
  {
    PathOfLabelsFromRoot(s.parentById, s.Labels(), c);
  }

  lemma LastTwo(p: Path, q: Path)
    requires |p| >= 2 && |q| >= 2
    ensures p[|p| - 2..] == q[|q| - 2..] <==> p[|p| - 2] == q[|q| - 2] && Last(p) == Last(q)
  {
    assert p[|p| - 2..] == [p[|p| - 2], Last(p)] && q[|q| - 2..] == [q[|q| - 2], Last(q)];
  }

  lemma PathMatches(path: Path, source: Path, mode: Mode)
    ensures Matches(path, source, mode) <==>
      match mode
      case ExactCanonicalPath => path == source
      case ExactLeafParentChain =>
        |source| >= 2 && |path| >= 2 && path[|path| - 2] == source[|source| - 2] && Last(path) == Last(source)
      case ExactLeafRootDepth =>
        path != [] && |path| == |source| && path[0] == source[0] && Last(path) == Last(source)
      case _ => false
  {
    if |path| >= 2 && |source| >= 2 { LastTwo(path, source); }
  }

  // What each rung confirms, read on the snapshot: the exact rung the path itself, the
  // parent chain the node's label and its parent's, the root-depth rung the node's label,
  // its root's and its depth. Nothing else confirms anything.
  lemma RungSelects(s: Snapshot, source: Path, candidates: seq<string>, c: string, mode: Mode)
    requires s.WellFormed()
    ensures c in Selection(PathsOf(s), source, candidates, mode) ==> c in candidates && c in s.nodesById
    ensures c in candidates && c in s.nodesById ==>
      (c in Selection(PathsOf(s), source, candidates, mode) <==>
        match mode
        case ExactCanonicalPath => s.PathOf(c) == source
        case ExactLeafParentChain =>
          && |source| >= 2 && s.parentById[c].Some? && s.parentById[c].value in s.nodesById
          && s.nodesById[c].canonicalName == source[|source| - 1]
          && s.nodesById[s.parentById[c].value].canonicalName == source[|source| - 2]
        case ExactLeafRootDepth =>
          var up := F.PathToRoot(s.parentById, c);
          && |up| == |source| && Last(up) in s.nodesById
          && s.nodesById[c].canonicalName == source[|source| - 1]
          && s.nodesById[Last(up)].canonicalName == source[0]
        case _ => false)
  {
    if c in s.nodesById {
      PathEnd(s, c);
      PathStart(s, c);
      PathMatches(s.PathOf(c), source, mode);
    }
  }

  // What the two derived properties of a result mean: ambiguous exactly with two or more
  // matches, a match exactly when one rung selected one candidate.
  lemma ResultReads(paths: PathMap, source: Path, candidateIds: seq<string>, ladder: seq<Mode>)
    ensures var r := Decision(paths, source, candidateIds, ladder);
      && (r.IsAmbiguous() <==> |r.matchedIds| >= 2)
      && (r.mode == NoMatch <==> r.matchedIds == [])
      && (r.MatchedCandidateId().Some? <==> r.mode in ladder && r.reason == ResolvedBy(r.mode))
  {
    var distinct := Dedup(candidateIds);
    var i := FirstHit(paths, source, distinct, ladder);
    if source != [] && distinct != [] && i < |ladder| {
      var hit := Selection(paths, source, distinct, ladder[i]);
      assert hit[0] in hit;
      assert Selected(paths, source, hit[0], ladder[i]);
    }
  }

  lemma {:induction false} RungsRead(paths: PathMap, source: Path, candidates: seq<string>, ladder: seq<Mode>, n: nat)
    requires n <= |ladder|
    ensures
      var rungs := RungsOf(paths, source, candidates, ladder, n);
      && |rungs| == n
      && forall k :: 0 <= k < n ==> rungs[k] == Rung(ladder[k], Selection(paths, source, candidates, ladder[k]))
  {
    if n == 0 {
    } else {
      RungsRead(paths, source, candidates, ladder, n - 1);
    }
  }

  // The walk over the ladder: each rung with what it selected, and the next one only after
  // a rung that selected nothing.
  ghost predicate IsWalk(paths: PathMap, source: Path, candidates: seq<string>, ladder: seq<Mode>, rungs: seq<Rung>) {
    && |rungs| <= |ladder|
    && (forall k :: 0 <= k < |rungs| ==>
          rungs[k] == Rung(ladder[k], Selection(paths, source, candidates, ladder[k])))
    && (forall k :: 0 <= k < |rungs| - 1 ==> rungs[k].matched == [])
  }

  // The last rung decides; without a match the whole ladder was walked.
  ghost predicate LastRungDecides(r: Comparison, ladder: seq<Mode>) {
    && r.matchedIds == (if r.rungs == [] then [] else Last(r.rungs).matched)
    && match |r.matchedIds|
       case 0 => |r.rungs| == |ladder| && r.reason == NoTopologyConfirmation
       case 1 => r.reason == ResolvedBy(Last(r.rungs).mode)
       case _ => r.reason == AmbiguousOn(Last(r.rungs).mode)
  }

  lemma HitRead(paths: PathMap, source: Path, distinct: seq<string>, ladder: seq<Mode>, i: nat)
    requires i < |ladder| && Missed(paths, source, distinct, ladder, i)
    requires Selection(paths, source, distinct, ladder[i]) != []
    ensures
      var r := DecisionAt(paths, source, distinct, ladder, i);
      IsWalk(paths, source, distinct, ladder, r.rungs) && LastRungDecides(r, ladder)
  {
    RungsRead(paths, source, distinct, ladder, i + 1);
  }

  lemma MissRead(paths: PathMap, source: Path, distinct: seq<string>, ladder: seq<Mode>)
    requires Missed(paths, source, distinct, ladder, |ladder|)
    ensures IsWalk(paths, source, distinct, ladder, RungsOf(paths, source, distinct, ladder, |ladder|))
    ensures |RungsOf(paths, source, distinct, ladder, |ladder|)| == |ladder|
    ensures var rungs := RungsOf(paths, source, distinct, ladder, |ladder|); rungs != [] ==> Last(rungs).matched == []
  {
    RungsRead(paths, source, distinct, ladder, |ladder|);
  }

  lemma WalkedRungs(paths: PathMap, source: Path, candidateIds: seq<string>, ladder: seq<Mode>)
    requires source != [] && candidateIds != []
    ensures
      var r := Decision(paths, source, candidateIds, ladder);
      IsWalk(paths, source, Dedup(candidateIds), ladder, r.rungs) && LastRungDecides(r, ladder)
  {
    var distinct := Dedup(candidateIds);
    assert candidateIds[0] in distinct;
    var i := FirstHit(paths, source, distinct, ladder);
    if i < |ladder| {
      HitDecides(paths, source, candidateIds, ladder, i);
      HitRead(paths, source, distinct, ladder, i);
    } else {
      MissDecides(paths, source, candidateIds, ladder);
      MissRead(paths, source, distinct, ladder);
    }
  }

  // ----- laws --------------------------------------------------------------------------

  ghost predicate SameSelection(paths: PathMap, source: Path, a: seq<string>, b: seq<string>, mode: Mode) {
    var sa, sb := Selection(paths, source, a, mode), Selection(paths, source, b, mode);
    |sa| == |sb| && NoDup(sa) && forall c :: c in sa <==> c in sb
  }

  lemma SelectionsAgree(paths: PathMap, source: Path, a: seq<string>, b: seq<string>, mode: Mode)
    requires NoDup(a) && NoDup(b) && forall c :: c in a <==> c in b
    ensures SameSelection(paths, source, a, b, mode)
  {
    var sa, sb := Selection(paths, source, a, mode), Selection(paths, source, b, mode);
    SelectionNoDup(paths, source, a, mode);
    SelectionNoDup(paths, source, b, mode);
    NoDupSize(sa);
    NoDupSize(sb);
    assert Elems(sa) == Elems(sb);
  }

  lemma SameFirstHit(paths: PathMap, source: Path, a: seq<string>, b: seq<string>, ladder: seq<Mode>)
    requires NoDup(a) && NoDup(b) && forall c :: c in a <==> c in b
    ensures FirstHit(paths, source, a, ladder) == FirstHit(paths, source, b, ladder)
  {
    var i, j := FirstHit(paths, source, a, ladder), FirstHit(paths, source, b, ladder);
    if i < |ladder| { SelectionsAgree(paths, source, a, b, ladder[i]); }
    if j < |ladder| { SelectionsAgree(paths, source, a, b, ladder[j]); }
  }

  // The candidates count as a set.
  lemma CandidateOrderIrrelevant(paths: PathMap, source: Path, a: seq<string>, b: seq<string>, ladder: seq<Mode>)
    requires forall c :: c in a <==> c in b
    ensures var r, q := Decision(paths, source, a, ladder), Decision(paths, source, b, ladder);
      && r.mode == q.mode && r.reason == q.reason
      && NoDup(r.matchedIds) && forall c :: c in r.matchedIds <==> c in q.matchedIds
  {
    var da, db := Dedup(a), Dedup(b);
    assert |da| > 0 ==> da[0] in db;
    assert |db| > 0 ==> db[0] in da;
    if source != [] && da != [] {
      SameFirstHit(paths, source, da, db, ladder);
      var i := FirstHit(paths, source, da, ladder);
      if i < |ladder| { SameDecisionAt(paths, source, da, db, ladder, i); }
    }
  }

  lemma SameDecisionAt(paths: PathMap, source: Path, a: seq<string>, b: seq<string>, ladder: seq<Mode>, i: nat)
    requires NoDup(a) && NoDup(b) && i < |ladder| && forall c :: c in a <==> c in b
    ensures var r, q := DecisionAt(paths, source, a, ladder, i), DecisionAt(paths, source, b, ladder, i);
      && r.mode == q.mode && r.reason == q.reason
      && NoDup(r.matchedIds) && forall c :: c in r.matchedIds <==> c in q.matchedIds
  {
    SelectionsAgree(paths, source, a, b, ladder[i]);
  }

  // A path equal to the source passes every rung that any path passes.
  lemma ExactPassesAll(path: Path, source: Path, mode: Mode)
    requires Matches(path, source, mode)
    ensures Matches(source, source, mode)
  {}

  // With an exact candidate present, no ladder resolves to another candidate.
  lemma ExactNeverOverridden(paths: PathMap, source: Path, candidates: seq<string>, ladder: seq<Mode>, exact: string)
    requires exact in candidates && exact in paths && paths[exact] == source
    ensures var r := Decision(paths, source, candidates, ladder);
      && (exact in r.matchedIds || r.matchedIds == [])
      && (r.MatchedCandidateId().Some? ==> r.MatchedCandidateId() == Some(exact))
  {
    var distinct := Dedup(candidates);
    var i := FirstHit(paths, source, distinct, ladder);
    if source != [] && i < |ladder| {
      var c := Selection(paths, source, distinct, ladder[i])[0];
      assert Selected(paths, source, c, ladder[i]);
      ExactPassesAll(paths[c], source, ladder[i]);
      assert Selected(paths, source, exact, ladder[i]);
    }
  }

  ghost predicate StartsExact(ladder: seq<Mode>) {
    ladder != [] && ladder[0] == ExactCanonicalPath
  }

  // The node's own path is resolved to the node by the exact rung.
  ghost predicate Finds(paths: PathMap, n: string, candidates: seq<string>, ladder: seq<Mode>)
    requires n in paths
  {
    var r := Decision(paths, paths[n], candidates, ladder);
    r.mode == ExactCanonicalPath && r.matchedIds == [n]
  }

  // Whatever the other candidates and the later rungs.
  ghost predicate AlwaysFinds(paths: PathMap) {
    forall n, candidates, ladder ::
      n in paths && n in candidates && StartsExact(ladder) ==> Finds(paths, n, candidates, ladder)
  }

  ghost predicate PathsDistinct(paths: PathMap) {
    forall a, b :: a in paths && b in paths && paths[a] == paths[b] ==> a == b
  }

  lemma OnlyOne(hit: seq<string>, n: string)
    requires NoDup(hit) && n in hit && forall k :: 0 <= k < |hit| ==> hit[k] == n
    ensures hit == [n]
  {
    NoDupSize(hit);
    assert Elems(hit) == {n};
  }

  lemma FindsItself(paths: PathMap, n: string, candidates: seq<string>, ladder: seq<Mode>)
    requires PathsDistinct(paths) && n in paths && paths[n] != [] && n in candidates && StartsExact(ladder)
    ensures Finds(paths, n, candidates, ladder)
  {
    var distinct := Dedup(candidates);
    var hit := Selection(paths, paths[n], distinct, ExactCanonicalPath);
    SelectionNoDup(paths, paths[n], distinct, ExactCanonicalPath);
    assert Selected(paths, paths[n], n, ExactCanonicalPath);
    assert forall k :: 0 <= k < |hit| ==> Selected(paths, paths[n], hit[k], ExactCanonicalPath);
    OnlyOne(hit, n);
  }

  lemma AmbiguousPair(paths: PathMap, a: string, b: string)
    requires a in paths && b in paths && a != b && paths[a] == paths[b]
    ensures !AlwaysFinds(paths)
  {
    var source, pair := paths[a], [a, b];
    assert pair[..1] == [a] && [a][..0] == [];
    assert Dedup([a]) == [a];
    assert Dedup(pair) == pair;
    assert Selection(paths, source, [a], ExactCanonicalPath) == [a];
    assert Selection(paths, source, pair, ExactCanonicalPath) == pair;
    var exact := [ExactCanonicalPath];
    assert StartsExact(exact) && a in pair;
    assert !Finds(paths, a, pair, exact);
  }

  // Comparing a node's own path always finds the node exactly when no two
  // siblings, and no two roots, share a label.
  lemma BuildThenCompare(s: Snapshot)
    requires s.WellFormed()
    ensures AlwaysFinds(PathsOf(s)) <==> DistinctSiblingLabels(s)
  {
    var paths := PathsOf(s);
    PathsIdentifyNodes(s);
    assert DistinctSiblingLabels(s) <==> PathsDistinct(paths);
    if PathsDistinct(paths) {
      forall n, candidates, ladder | n in paths && n in candidates && StartsExact(ladder)
        ensures Finds(paths, n, candidates, ladder)
      {
        FindsItself(paths, n, candidates, ladder);
      }
    } else {
      var a, b :| a in paths && b in paths && paths[a] == paths[b] && a != b;
      AmbiguousPair(paths, a, b);
    }
  }
}
