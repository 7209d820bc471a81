// The prefix trie built from canonical source paths.
// Source: connector/domain/dependency_tree/source_builder.py
module SourceBuilder {
  import opened Basics
  import opened PyText
  import F = Forest
  import opened TopologySnapshot

  type Path = seq<string>

  datatype Diagnostic =
    | PathEmpty(index: nat)
    | PathMalformed(index: nat, segments: Path)
    | Collision(segments: Path, kept: nat, dropped: nat)

  // The synthetic-id function: a hash of the path, with the normalization
  // version fixed. Distinct paths get distinct ids.
  datatype Hash = Hash(digest: Path -> string)

  function IdOf(h: Hash, p: Path): string {
    h.digest(p)
  }

  ghost predicate Injective(h: Hash) {
    forall p, q :: IdOf(h, p) == IdOf(h, q) ==> p == q
  }

  // The path an id was made from.
  ghost function PathWith(h: Hash, id: string): Path {
    if exists p :: IdOf(h, p) == id then
      var p :| IdOf(h, p) == id;
      p
    else []
  }

  ghost predicate Inverts(h: Hash) {
    forall p {:trigger PathWith(h, IdOf(h, p))} :: PathWith(h, IdOf(h, p)) == p
  }

  lemma InjectiveInverts(h: Hash)
    requires Injective(h)
    ensures Inverts(h)
  {}

  predicate AllBlank(p: Path) {
    forall s :: s in p ==> Blank(s)
  }

  predicate AnyBlank(p: Path) {
    exists s :: s in p && Blank(s)
  }

  predicate Accepted(p: Path) {
    !AllBlank(p) && !AnyBlank(p)
  }

  ghost function AcceptedSet(paths: seq<Path>): set<Path> {
    set p | p in paths && Accepted(p)
  }

  // The non-empty prefixes of the accepted paths.
  ghost function Prefixes(accepted: set<Path>): set<Path> {
    set q, k | q in accepted && 1 <= k <= |q| :: q[..k]
  }

  // ----- diagnostics -----------------------------------------------------------------

  ghost function ErrorsOf(paths: seq<Path>): seq<Diagnostic> {
    if paths == [] then [] else
      ErrorsOf(paths[..|paths| - 1]) + if AllBlank(Last(paths)) then [PathEmpty(|paths| - 1)] else []
  }

  ghost function WarningsOf(paths: seq<Path>): seq<Diagnostic> {
    if paths == [] then [] else
      var front, p := paths[..|paths| - 1], Last(paths);
      WarningsOf(front) +
      if AllBlank(p) then []
      else if AnyBlank(p) then [PathMalformed(|front|, p)]
      else if p in front then [Collision(p, Find(front, p), |front|)]
      else []
  }

  // A segment that shows something.
  predicate Shows(segment: string) {
    exists c :: c in segment && !IsSpace(c)
  }

  lemma BlankIff(p: Path)
    ensures AllBlank(p) <==> forall k :: 0 <= k < |p| ==> !Shows(p[k])
    ensures AnyBlank(p) <==> exists k :: 0 <= k < |p| && !Shows(p[k])
  {
    forall segment | segment in p ensures Blank(segment) <==> !Shows(segment) {}
    assert forall k :: 0 <= k < |p| ==> p[k] in p;
    if AnyBlank(p) {
      var segment :| segment in p && Blank(segment);
      var k :| 0 <= k < |p| && p[k] == segment;
    }
  }

  // A path is taken when it has segments and each shows something.
  lemma AcceptedIff(p: Path)
    ensures Accepted(p) <==> p != [] && forall k :: 0 <= k < |p| ==> Shows(p[k])
  {
    BlankIff(p);
    if p != [] && AllBlank(p) { assert !Shows(p[0]); }
  }

  // There is an error for each path without a segment that shows something.
  lemma {:induction false} ErrorNamed(paths: seq<Path>, i: nat)
    ensures PathEmpty(i) in ErrorsOf(paths) <==> i < |paths| && forall k :: 0 <= k < |paths[i]| ==> !Shows(paths[i][k])
  {
    if paths == [] {
    } else {
      ErrorNamed(paths[..|paths| - 1], i);
      BlankIff(Last(paths));
    }
  }

  // A warning for each path with both kinds of segments.
  lemma {:induction false} MalformedNamed(paths: seq<Path>, i: nat, p: Path)
    ensures PathMalformed(i, p) in WarningsOf(paths) <==>
      && i < |paths| && p == paths[i]
      && (exists k :: 0 <= k < |p| && Shows(p[k])) && (exists k :: 0 <= k < |p| && !Shows(p[k]))
  {
    if paths == [] {
    } else {
      MalformedNamed(paths[..|paths| - 1], i, p);
      BlankIff(Last(paths));
    }
  }

  // And one for each accepted path that was there before, naming its first place.
  lemma {:induction false} CollisionNamed(paths: seq<Path>, p: Path, kept: nat, dropped: nat)
    ensures Collision(p, kept, dropped) in WarningsOf(paths) <==>
      && kept < dropped < |paths| && paths[dropped] == p && paths[kept] == p && p !in paths[..kept]
      && p != [] && forall k :: 0 <= k < |p| ==> Shows(p[k])
  {
    if paths == [] {
    } else {
      var front := paths[..|paths| - 1];
      CollisionNamed(front, p, kept, dropped);
      AcceptedIff(Last(paths));
      if kept < |front| { assert front[..kept] == paths[..kept] && front[kept] == paths[kept]; }
      if p in front && p == Last(paths) { FirstPlace(front, p, kept); }
    }
  }

  lemma FirstPlace(s: seq<Path>, p: Path, i: nat)
    requires p in s
    ensures i == Find(s, p) <==> i < |s| && s[i] == p && p !in s[..i]
  {
    var j := Find(s, p);
    assert forall k :: 0 <= k < j ==> s[..j][k] == s[k];
    assert i < |s| ==> forall k :: 0 <= k < i ==> s[..i][k] == s[k];
  }

  // ----- the trie ---------------------------------------------------------------------

  datatype Trie = Trie(nodes: map<string, TopologyNode>, parents: F.Parents, children: map<string, set<string>>)

  // The path of the parent.
  ghost function Up(p: Path): Path {
    if p == [] then [] else p[..|p| - 1]
  }

  ghost function ParentIdOf(h: Hash, p: Path): Option<string>
    requires p != []
  {
    if |p| == 1 then None else Some(IdOf(h, Up(p)))
  }

  ghost function NodeOf(h: Hash, p: Path): TopologyNode
    requires p != []
  {
    TopologyNode(IdOf(h, p), ParentIdOf(h, p), Last(p), Last(p))
  }

  ghost predicate PrefixClosed(prefixes: set<Path>) {
    [] !in prefixes && forall p {:trigger Up(p)} :: p in prefixes && |p| > 1 ==> Up(p) in prefixes
  }

  // `id` belongs to one of the prefixes.
  ghost predicate Names(h: Hash, prefixes: set<Path>, id: string) {
    PathWith(h, id) in prefixes && IdOf(h, PathWith(h, id)) == id
  }

  ghost predicate IdsMatch(ids: set<string>, h: Hash, prefixes: set<Path>) {
    forall id {:trigger Names(h, prefixes, id)} :: id in ids <==> Names(h, prefixes, id)
  }

  ghost predicate NodesMatch(nodes: map<string, TopologyNode>, h: Hash) {
    forall id {:trigger nodes[id]} :: id in nodes ==> PathWith(h, id) != [] && nodes[id] == NodeOf(h, PathWith(h, id))
  }

  ghost predicate LinksMatch(t: Trie) {
    && t.nodes.Keys == t.parents.Keys == t.children.Keys
    && F.ParentsKnown(t.parents)
    && (forall id {:trigger t.parents[id]} :: id in t.parents ==> t.parents[id] == t.nodes[id].parentId)
    && (forall id {:trigger t.children[id]} :: id in t.children ==> t.children[id] == F.Children(t.parents, id))
  }

  // The dicts hold exactly the given prefixes.
  ghost predicate Represents(t: Trie, h: Hash, prefixes: set<Path>) {
    PrefixClosed(prefixes) && IdsMatch(t.nodes.Keys, h, prefixes) && NodesMatch(t.nodes, h) && LinksMatch(t)
  }

  function WithNode(t: Trie, id: string, parentId: Option<string>, name: string): Trie {
    var children := if id in t.children then t.children else t.children[id := {}];
    Trie(t.nodes[id := TopologyNode(id, parentId, name, name)], t.parents[id := parentId],
         match parentId
         case None => children
         case Some(q) => children[q := (if q in children then children[q] else {}) + {id}])
  }

  lemma AddPrefix(t: Trie, h: Hash, prefixes: set<Path>, p: Path)
    requires Inverts(h) && Represents(t, h, prefixes)
    requires p != [] && p !in prefixes && (|p| > 1 ==> Up(p) in prefixes)
    ensures Represents(WithNode(t, IdOf(h, p), ParentIdOf(h, p), Last(p)), h, prefixes + {p})
  {
    NewIdsFit(t.nodes.Keys, h, prefixes, p);
    AddedIds(t.nodes.Keys, h, prefixes, p);
    AddedLinks(t, IdOf(h, p), ParentIdOf(h, p), Last(p));
    AddedNode(t.nodes, h, p);
    var after := t.nodes[IdOf(h, p) := NodeOf(h, p)];
    assert after.Keys == t.nodes.Keys + {IdOf(h, p)};
    assert WithNode(t, IdOf(h, p), ParentIdOf(h, p), Last(p)).nodes == after;
  }

  lemma NewIdsFit(ids: set<string>, h: Hash, prefixes: set<Path>, p: Path)
    requires Inverts(h) && IdsMatch(ids, h, prefixes) && PrefixClosed(prefixes)
    requires p != [] && p !in prefixes && (|p| > 1 ==> Up(p) in prefixes)
    ensures PrefixClosed(prefixes + {p})
    ensures IdOf(h, p) !in ids && (ParentIdOf(h, p).Some? ==> ParentIdOf(h, p).value in ids)
  {
    assert PathWith(h, IdOf(h, p)) == p;
    assert !Names(h, prefixes, IdOf(h, p));
    if |p| > 1 {
      assert PathWith(h, IdOf(h, Up(p))) == Up(p);
      assert Names(h, prefixes, IdOf(h, Up(p)));
    }
  }

  lemma AddedNode(nodes: map<string, TopologyNode>, h: Hash, p: Path)
    requires Inverts(h) && NodesMatch(nodes, h) && p != []
    ensures NodesMatch(nodes[IdOf(h, p) := NodeOf(h, p)], h)
  {
    assert PathWith(h, IdOf(h, p)) == p;
  }

  lemma AddedIds(ids: set<string>, h: Hash, prefixes: set<Path>, p: Path)
    requires Inverts(h) && IdsMatch(ids, h, prefixes)
    ensures IdsMatch(ids + {IdOf(h, p)}, h, prefixes + {p})
  {
    forall id ensures id in ids + {IdOf(h, p)} <==> Names(h, prefixes + {p}, id) {
      assert PathWith(h, IdOf(h, p)) == p;
      assert id in ids <==> Names(h, prefixes, id);
    }
  }

  // A node unknown so far is nobody's parent; it joins its own parent's children.
  lemma AddedLinks(t: Trie, id: string, up: Option<string>, name: string)
    requires LinksMatch(t) && id !in t.nodes && (up.Some? ==> up.value in t.nodes)
    ensures LinksMatch(WithNode(t, id, up, name))
  {
    var after := WithNode(t, id, up, name);
    forall n | n in after.children ensures after.children[n] == F.Children(after.parents, n) {
      ChildrenAdded(t.parents, id, up, n);
    }
    forall n | n in after.parents ensures F.ParentKnown(after.parents, n) {
      if n != id { assert F.ParentKnown(t.parents, n); }
    }
  }

  lemma ChildrenAdded(ps: F.Parents, id: string, up: Option<string>, n: string)
    requires F.ParentsKnown(ps) && id !in ps
    ensures F.Children(ps[id := up], n) == F.Children(ps, n) + if up == Some(n) then {id} else {}
    ensures n == id ==> F.Children(ps, n) == {}
  {
    forall c | c in ps ensures ps[c] != Some(id) { assert F.ParentKnown(ps, c); }
  }

  ghost function PrefixesUpTo(p: Path, k: nat): set<Path>
    requires k <= |p|
  {
    set i | 1 <= i <= k :: p[..i]
  }

  // Walks a path root first and adds the prefixes not yet present.
  method IngestPath(segments: Path, t0: Trie, h: Hash, ghost prefixes: set<Path>) returns (t: Trie)
    requires Inverts(h) && Represents(t0, h, prefixes)
    ensures Represents(t, h, prefixes + PrefixesUpTo(segments, |segments|))
  {
    t := t0;
    var parentId := None;
    assert prefixes + PrefixesUpTo(segments, 0) == prefixes;
    for depth := 1 to |segments| + 1
      invariant Represents(t, h, prefixes + PrefixesUpTo(segments, depth - 1))
      invariant parentId == if depth == 1 then None else Some(IdOf(h, segments[..depth - 1]))
    {
      var prefix := segments[..depth];
      var nodeId := IdOf(h, prefix);
      ghost var before := prefixes + PrefixesUpTo(segments, depth - 1);
      assert PrefixesUpTo(segments, depth) == PrefixesUpTo(segments, depth - 1) + {prefix};
      assert before + {prefix} == prefixes + PrefixesUpTo(segments, depth);
      assert Up(prefix) == segments[..depth - 1];
      assert PathWith(h, nodeId) == prefix;
      assert nodeId in t.nodes <==> Names(h, before, nodeId);
      if nodeId !in t.nodes {
        AddPrefix(t, h, before, prefix);
        t := WithNode(t, nodeId, parentId, Last(prefix));
      } else {
        assert Names(h, before, nodeId);
        assert before + {prefix} == before;
      }
      parentId := Some(nodeId);
    }
  }

  // ----- the snapshot -------------------------------------------------------------------

  ghost predicate IsTrieOf(s: Snapshot, h: Hash, prefixes: set<Path>) {
    && s.WellFormed()
    && IdsMatch(s.nodesById.Keys, h, prefixes) && NodesMatch(s.nodesById, h)
  }

  ghost function MaxLen(paths: set<Path>): (m: nat)
    ensures forall p :: p in paths ==> |p| <= m
  {
    if paths == {} then 0 else
      var p :| p in paths;
      var m := MaxLen(paths - {p});
      if |p| > m then |p| else m
  }

  lemma PathShortens(t: Trie, h: Hash, prefixes: set<Path>, id: string)
    requires Inverts(h) && Represents(t, h, prefixes) && id in t.parents
    ensures |PathWith(h, id)| <= MaxLen(prefixes)
    ensures t.parents[id].Some? ==> |PathWith(h, t.parents[id].value)| < |PathWith(h, id)|
  {
    assert t.nodes[id] == NodeOf(h, PathWith(h, id));
    assert Names(h, prefixes, id);
    assert PathWith(h, IdOf(h, Up(PathWith(h, id)))) == Up(PathWith(h, id));
  }

  ghost function PathLengths(ps: F.Parents, h: Hash): map<string, nat> {
    map id | id in ps :: |PathWith(h, id)|
  }

  // The path of every node is within the bound and longer than its parent's.
  ghost predicate Shortens(ps: F.Parents, h: Hash, bound: nat, id: string)
    requires id in ps
  {
    |PathWith(h, id)| <= bound && (ps[id].Some? ==> |PathWith(h, ps[id].value)| < |PathWith(h, id)|)
  }

  lemma PathLengthsRank(ps: F.Parents, h: Hash, bound: nat)
    requires forall id :: id in ps ==> Shortens(ps, h, bound, id)
    ensures F.IsRank(ps, PathLengths(ps, h), bound + 1)
  {}

  lemma TrieIsForest(t: Trie, h: Hash, prefixes: set<Path>)
    requires Inverts(h) && Represents(t, h, prefixes)
    ensures F.IsForest(t.parents)
  {
    forall id | id in t.parents ensures Shortens(t.parents, h, MaxLen(prefixes), id) {
      PathShortens(t, h, prefixes, id);
    }
    PathLengthsRank(t.parents, h, MaxLen(prefixes));
    assert F.Ranked(t.parents);
  }

  ghost function Freeze(t: Trie): Snapshot {
    Frozen(t.nodes, t.parents, t.children)
  }

  lemma FreezeIsTrie(t: Trie, h: Hash, prefixes: set<Path>)
    requires Inverts(h) && Represents(t, h, prefixes)
    ensures IsTrieOf(Freeze(t), h, prefixes)
  {
    TrieIsForest(t, h, prefixes);
    FrozenWellFormed(t.nodes, t.parents, t.children);
  }

  lemma PrefixesGrow(accepted: set<Path>, p: Path)
    ensures Prefixes(accepted + {p}) == Prefixes(accepted) + PrefixesUpTo(p, |p|)
  {}

  // What the main loop holds after the given paths.
  ghost predicate Scanned(paths: seq<Path>, h: Hash, t: Trie, seen: map<Path, nat>, errors: seq<Diagnostic>,
      warnings: seq<Diagnostic>)
  {
    && Represents(t, h, Prefixes(AcceptedSet(paths)))
    && errors == ErrorsOf(paths) && warnings == WarningsOf(paths)
    && FirstSeen(paths, seen)
  }

  // The accepted paths with the place of their first occurrence.
  ghost predicate FirstSeen(paths: seq<Path>, seen: map<Path, nat>) {
    && seen.Keys == AcceptedSet(paths)
    && forall p :: p in seen ==> p in paths && seen[p] == Find(paths, p)
  }

  lemma {:induction false} FindStable(s: seq<Path>, x: Path, p: Path)
    requires p in s
    ensures Find(s + [x], p) == Find(s, p)
  {
    assert (s + [x])[1..] == s[1..] + [x];
    if s[0] != p { FindStable(s[1..], x, p); }
  }

  lemma ScanStep(paths: seq<Path>, p: Path, seen: map<Path, nat>)
    requires FirstSeen(paths, seen)
    ensures AcceptedSet(paths + [p]) == AcceptedSet(paths) + if Accepted(p) then {p} else {}
    ensures FirstSeen(paths + [p], if Accepted(p) && p !in seen then seen[p := |paths|] else seen)
    ensures ErrorsOf(paths + [p]) == ErrorsOf(paths) + if AllBlank(p) then [PathEmpty(|paths|)] else []
    ensures WarningsOf(paths + [p]) == WarningsOf(paths) +
      if AllBlank(p) then [] else if AnyBlank(p) then [PathMalformed(|paths|, p)]
      else if p in seen then [Collision(p, seen[p], |paths|)] else []
  {
    AcceptedStep(paths, p);
    SeenStep(paths, p, seen);
    FindingsStep(paths, p, seen);
  }

  lemma AcceptedStep(paths: seq<Path>, p: Path)
    ensures AcceptedSet(paths + [p]) == AcceptedSet(paths) + if Accepted(p) then {p} else {}
  {}

  lemma FindingsStep(paths: seq<Path>, p: Path, seen: map<Path, nat>)
    requires FirstSeen(paths, seen)
    ensures ErrorsOf(paths + [p]) == ErrorsOf(paths) + if AllBlank(p) then [PathEmpty(|paths|)] else []
    ensures WarningsOf(paths + [p]) == WarningsOf(paths) +
      if AllBlank(p) then [] else if AnyBlank(p) then [PathMalformed(|paths|, p)]
      else if p in seen then [Collision(p, seen[p], |paths|)] else []
  {
    assert (paths + [p])[..|paths|] == paths;
    assert p in seen <==> p in AcceptedSet(paths);
  }

  lemma {:induction false} FindNew(s: seq<Path>, x: Path)
    requires x !in s
    ensures Find(s + [x], x) == |s|
  {
    if s != [] {
      assert (s + [x])[1..] == s[1..] + [x];
      FindNew(s[1..], x);
    }
  }

  lemma SeenStep(paths: seq<Path>, p: Path, seen: map<Path, nat>)
    requires FirstSeen(paths, seen)
    ensures FirstSeen(paths + [p], if Accepted(p) && p !in seen then seen[p := |paths|] else seen)
  {
    var now := if Accepted(p) && p !in seen then seen[p := |paths|] else seen;
    AcceptedStep(paths, p);
    forall q | q in now ensures q in paths + [p] && now[q] == Find(paths + [p], q) {
      if q in seen { FindStable(paths, p, q); } else { FindNew(paths, p); }
    }
  }

  lemma SkipStep(paths: seq<Path>, p: Path, h: Hash, t: Trie, seen: map<Path, nat>,
      errors: seq<Diagnostic>, warnings: seq<Diagnostic>)
    requires Scanned(paths, h, t, seen, errors, warnings) && (!Accepted(p) || p in seen)
    ensures Scanned(paths + [p], h, t, seen,
      errors + if AllBlank(p) then [PathEmpty(|paths|)] else [],
      warnings + (
        if AllBlank(p) then []
        else if AnyBlank(p) then [PathMalformed(|paths|, p)]
        else [Collision(p, seen[p], |paths|)]))
  {
    ScanStep(paths, p, seen);
    assert AcceptedSet(paths + [p]) == AcceptedSet(paths);
  }

  lemma AcceptStep(paths: seq<Path>, p: Path, h: Hash, t: Trie, after: Trie, seen: map<Path, nat>,
      errors: seq<Diagnostic>, warnings: seq<Diagnostic>)
    requires Scanned(paths, h, t, seen, errors, warnings) && Accepted(p) && p !in seen
    requires Represents(after, h, Prefixes(AcceptedSet(paths)) + PrefixesUpTo(p, |p|))
    ensures Scanned(paths + [p], h, after, seen[p := |paths|], errors, warnings)
  {
    ScanStep(paths, p, seen);
    PrefixesGrow(AcceptedSet(paths), p);
  }

  // The snapshot's nodes are exactly the non-empty prefixes of the accepted
  // paths; diagnostics name every path that was not newly accepted.
  method Build(paths: seq<Path>, h: Hash)
    returns (snapshot: Snapshot, errors: seq<Diagnostic>, warnings: seq<Diagnostic>)
    requires Injective(h)
    ensures IsTrieOf(snapshot, h, Prefixes(AcceptedSet(paths)))
    ensures errors == ErrorsOf(paths) && warnings == WarningsOf(paths)
  {
    InjectiveInverts(h);
    var t := Trie(map[], map[], map[]);
    errors, warnings := [], [];
    var seenPaths: map<Path, nat> := map[];
    assert AcceptedSet([]) == {} && Prefixes({}) == {};
    for index := 0 to |paths|
      invariant Scanned(paths[..index], h, t, seenPaths, errors, warnings)
    {
      var segments := paths[index];
      ghost var before := paths[..index];
      assert paths[..index + 1] == before + [segments];
      if AllBlank(segments) {
        SkipStep(before, segments, h, t, seenPaths, errors, warnings);
        errors := errors + [PathEmpty(index)];
      } else if AnyBlank(segments) {
        SkipStep(before, segments, h, t, seenPaths, errors, warnings);
        warnings := warnings + [PathMalformed(index, segments)];
      } else if segments in seenPaths {
        SkipStep(before, segments, h, t, seenPaths, errors, warnings);
        warnings := warnings + [Collision(segments, seenPaths[segments], index)];
      } else {
        var grown := IngestPath(segments, t, h, Prefixes(AcceptedSet(before)));
        AcceptStep(before, segments, h, t, grown, seenPaths, errors, warnings);
        seenPaths := seenPaths[segments := index];
        t := grown;
      }
    }
    assert paths[..|paths|] == paths;
    FreezeIsTrie(t, h, Prefixes(AcceptedSet(paths)));
    var frozen := FreezeChildren(t.children);
    var roots := Sorted(F.Roots(t.parents));
    snapshot := Snapshot(t.nodes, t.parents, frozen, roots);
  }

  // ----- round trip --------------------------------------------------------------------

  lemma UpThenLast(p: Path)
    requires p != []
    ensures p == Up(p) + [Last(p)]
  {}

  lemma ParentInTrie(s: Snapshot, h: Hash, prefixes: set<Path>, id: string)
    requires IsTrieOf(s, h, prefixes) && id in s.nodesById
    ensures var p := PathWith(h, id);
      && p != [] && s.Labels()[id] == Last(p)
      && s.parentById[id] == ParentIdOf(h, p)
  {
    assert s.nodesById[id] == NodeOf(h, PathWith(h, id));
  }

  lemma {:induction false} LabelsSpellPath(s: Snapshot, h: Hash, prefixes: set<Path>, id: string)
    requires Inverts(h) && IsTrieOf(s, h, prefixes) && id in s.nodesById
    ensures s.PathOf(id) == PathWith(h, id)
    decreases F.Rank(s.parentById, id)
  {
    var p := PathWith(h, id);
    ParentInTrie(s, h, prefixes, id);
    F.RankFacts(s.parentById, id);
    PathStep(s, id);
    UpThenLast(p);
    if |p| > 1 {
      var up := IdOf(h, Up(p));
      assert PathWith(h, up) == Up(p);
      LabelsSpellPath(s, h, prefixes, up);
    }
  }

  // The path of labels read back from a prefix's node is the prefix itself.
  lemma RoundTrip(s: Snapshot, h: Hash, accepted: set<Path>, p: Path)
    requires Injective(h) && IsTrieOf(s, h, Prefixes(accepted)) && p in Prefixes(accepted)
    ensures IdOf(h, p) in s.nodesById && s.PathOf(IdOf(h, p)) == p
  {
    InjectiveInverts(h);
    assert PathWith(h, IdOf(h, p)) == p && Names(h, Prefixes(accepted), IdOf(h, p));
    LabelsSpellPath(s, h, Prefixes(accepted), IdOf(h, p));
  }

  // There are no nodes besides: every node's path is an accepted prefix with that id.
  lemma NodesArePrefixes(s: Snapshot, h: Hash, accepted: set<Path>, id: string)
    requires Injective(h) && IsTrieOf(s, h, Prefixes(accepted)) && id in s.nodesById
    ensures s.PathOf(id) in Prefixes(accepted) && IdOf(h, s.PathOf(id)) == id
    ensures
      var p, node := s.PathOf(id), s.nodesById[id];
      && node.displayName == p[|p| - 1] && node.canonicalName == p[|p| - 1]
      && node.parentId == if |p| == 1 then None else Some(IdOf(h, p[..|p| - 1]))
  {
    InjectiveInverts(h);
    LabelsSpellPath(s, h, Prefixes(accepted), id);
    assert Names(h, Prefixes(accepted), id);
  }

  // Paths identify the nodes of a source trie.
  lemma TriePathsInjective(s: Snapshot, h: Hash, accepted: set<Path>)
    requires Injective(h) && IsTrieOf(s, h, Prefixes(accepted))
    ensures forall a, b :: a in s.nodesById && b in s.nodesById && s.PathOf(a) == s.PathOf(b) ==> a == b
    ensures DistinctSiblingLabels(s)
  {
    forall a, b | a in s.nodesById && b in s.nodesById && s.PathOf(a) == s.PathOf(b) ensures a == b {
      NodesArePrefixes(s, h, accepted, a);
      NodesArePrefixes(s, h, accepted, b);
    }
    PathsIdentifyNodes(s);
  }

  // The set of accepted paths alone determines the snapshot.
  lemma TrieDetermined(s: Snapshot, t: Snapshot, h: Hash, prefixes: set<Path>)
    requires IsTrieOf(s, h, prefixes) && IsTrieOf(t, h, prefixes)
    ensures s == t
  {
    forall id ensures id in s.nodesById <==> id in t.nodesById {
      assert id in s.nodesById.Keys <==> Names(h, prefixes, id);
    }
    assert s.nodesById == t.nodesById;
    NodesDetermine(s, t);
  }

  // Order and repetition of the input do not matter.
  lemma OrderAndRepetitionIrrelevant(paths: seq<Path>, others: seq<Path>, s: Snapshot, t: Snapshot, h: Hash)
    requires forall p :: Accepted(p) ==> (p in paths <==> p in others)
    requires IsTrieOf(s, h, Prefixes(AcceptedSet(paths))) && IsTrieOf(t, h, Prefixes(AcceptedSet(others)))
    ensures s == t
  {
    assert AcceptedSet(paths) == AcceptedSet(others);
    TrieDetermined(s, t, h, Prefixes(AcceptedSet(paths)));
  }
}
