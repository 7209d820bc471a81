// The layered merge of configuration sources with its record of where each value
// came from.
// Source: connector/config/loader.py
module ConfigMerge {
  import opened Basics

  // A configuration value: explicitly unset, a leaf, or a section.
  datatype Cfg = Unset | Leaf(value: string) | Section(entries: map<string, Cfg>)

  type Entries = map<string, Cfg>

  type Path = seq<string>

  datatype Source = Config | Env | Cli

  type Trace = map<string, Source>

  // ----- looking into a tree ---------------------------------------------------------

  function Child(c: Cfg, k: string): Cfg {
    if c.Section? && k in c.entries then c.entries[k] else Unset
  }

  ghost function At(c: Cfg, p: Path): Cfg
    decreases p
  {
    if p == [] then c else At(Child(c, p[0]), p[1..])
  }

  // The paths of the set leaves.
  ghost function LeafPaths(c: Cfg): set<Path> {
    match c
    case Unset => {}
    case Leaf(_) => {[]}
    case Section(m) => set k, p | k in m && p in LeafPaths(m[k]) :: [k] + p
  }

  lemma {:induction false} LeafPathsMean(c: Cfg, p: Path)
    ensures p in LeafPaths(c) <==> At(c, p).Leaf?
    decreases p
  {
    if p == [] {
    } else {
      assert p == [p[0]] + p[1..];
      LeafPathsMean(Child(c, p[0]), p[1..]);
      if c.Section? {
        if p in LeafPaths(c) {
          var k, q :| k in c.entries && q in LeafPaths(c.entries[k]) && p == [k] + q;
          assert q == p[1..];
        }
      }
    }
  }

  // ----- full keys ---------------------------------------------------------------------

  function FullKey(prefix: string, key: string): string {
    if prefix != "" then prefix + "." + key else key
  }

  ghost function FullPath(prefix: string, p: Path): string
    decreases p
  {
    if p == [] then prefix else FullPath(FullKey(prefix, p[0]), p[1..])
  }

  predicate PlainKey(k: string) {
    k != "" && '.' !in k
  }

  ghost predicate PlainPath(p: Path) {
    p != [] && forall i :: 0 <= i < |p| ==> PlainKey(p[i])
  }

  // ----- the merge as a function ---------------------------------------------------------

  function EntriesOf(t: Cfg): Entries {
    if t.Section? then t.entries else map[]
  }

  // Leaves of the source overwrite, unset values do nothing, sections merge into
  // sections and replace leaves.
  ghost function Merge(t: Cfg, s: Cfg): Cfg
    decreases s
  {
    match s
    case Unset => t
    case Leaf(_) => s
    case Section(m) =>
      Section(map k | k in EntriesOf(t).Keys + m.Keys && (k in EntriesOf(t) || m[k] != Unset) ::
        if k in m then Merge(if k in EntriesOf(t) then EntriesOf(t)[k] else Unset, m[k]) else EntriesOf(t)[k])
  }

  ghost function TraceKeys(s: Cfg, prefix: string): set<string> {
    set p | p in LeafPaths(s) :: FullPath(prefix, p)
  }

  ghost function TraceOf(s: Cfg, prefix: string, source: Source): Trace {
    map f | f in TraceKeys(s, prefix) :: source
  }

  lemma MergeChild(t: Cfg, s: Cfg, k: string)
    requires s.Section?
    ensures Child(Merge(t, s), k) == Merge(Child(t, k), Child(s, k))
  {}

  // A leaf of the merged tree is the source's leaf there, or else the target's.
  lemma {:induction false} MergedLeaf(t: Cfg, s: Cfg, p: Path)
    requires At(Merge(t, s), p).Leaf?
    ensures At(Merge(t, s), p) == if At(s, p).Leaf? then At(s, p) else At(t, p)
    decreases p
  {
    if p != [] && s.Section? {
      MergeChild(t, s, p[0]);
      MergedLeaf(Child(t, p[0]), Child(s, p[0]), p[1..]);
    }
    if p != [] && s.Unset? { UnsetEverywhere(p); }
  }

  lemma {:induction false} UnsetEverywhere(p: Path)
    ensures At(Unset, p) == Unset
  {
    if p == [] {
    } else {
      UnsetEverywhere(p[1..]);
    }
  }

  // The source's leaves all arrive.
  lemma {:induction false} SourceLeafArrives(t: Cfg, s: Cfg, p: Path)
    requires At(s, p).Leaf?
    ensures At(Merge(t, s), p) == At(s, p)
    decreases p
  {
    if p == [] {
    } else {
      if !s.Section? { UnsetEverywhere(p[1..]); }
      MergeChild(t, s, p[0]);
      SourceLeafArrives(Child(t, p[0]), Child(s, p[0]), p[1..]);
    }
  }

  // ----- the merge as the code runs it ------------------------------------------------------

  lemma MergeEntry(t: Entries, done: Entries, k: string, v: Cfg)
    requires k !in done
    ensures Merge(Section(t), Section(done[k := v])) ==
      if v == Unset then Merge(Section(t), Section(done))
      else Section(Merge(Section(t), Section(done)).entries[k := Merge(Child(Section(t), k), v)])
  {
    var grown := done[k := v];
    var before, after := Merge(Section(t), Section(done)).entries, Merge(Section(t), Section(grown)).entries;
    forall j | j != k ensures (j in before <==> j in after) && (j in before ==> before[j] == after[j]) {
      assert j in done ==> grown[j] == done[j];
    }
    assert grown[k] == v;
    if v == Unset {
      assert k in before <==> k in after;
      assert k in before ==> before[k] == t[k] && after[k] == Merge(t[k], Unset) == t[k];
      assert before == after;
    } else {
      assert after == before[k := Merge(Child(Section(t), k), v)];
    }
  }

  lemma TraceEntry(done: Entries, k: string, v: Cfg, prefix: string)
    requires k !in done
    ensures TraceKeys(Section(done[k := v]), prefix)
      == TraceKeys(Section(done), prefix) + TraceKeys(v, FullKey(prefix, k))
  {
    var grown := done[k := v];
    forall f | f in TraceKeys(Section(grown), prefix)
      ensures f in TraceKeys(Section(done), prefix) || f in TraceKeys(v, FullKey(prefix, k))
    {
      var p :| p in LeafPaths(Section(grown)) && f == FullPath(prefix, p);
      var j, q :| j in grown && q in LeafPaths(grown[j]) && p == [j] + q;
      assert p[1..] == q;
      if j != k { assert done[j] == grown[j] && p in LeafPaths(Section(done)); }
    }
    forall f | f in TraceKeys(Section(done), prefix) ensures f in TraceKeys(Section(grown), prefix) {
      var p :| p in LeafPaths(Section(done)) && f == FullPath(prefix, p);
      var j, q :| j in done && q in LeafPaths(done[j]) && p == [j] + q;
      assert grown[j] == done[j];
      assert p in LeafPaths(Section(grown));
    }
    forall f | f in TraceKeys(v, FullKey(prefix, k)) ensures f in TraceKeys(Section(grown), prefix) {
      var q :| q in LeafPaths(v) && f == FullPath(FullKey(prefix, k), q);
      assert ([k] + q)[1..] == q && grown[k] == v;
      assert [k] + q in LeafPaths(Section(grown));
    }
  }

  // One key of the source: recurse into a section, overwrite with a leaf, skip
  // what is unset.
  method MergeKey(target0: Entries, trace0: Trace, key: string, value: Cfg, source: Source, prefix: string)
    returns (target: Entries, trace: Trace)
    ensures target == if value == Unset then target0 else target0[key := Merge(Child(Section(target0), key), value)]
    ensures trace == trace0 + TraceOf(value, FullKey(prefix, key), source)
    decreases value, 1
  {
    match value
    case Section(sub) =>
      var inner := if key !in target0 || !target0[key].Section? then map[] else target0[key].entries;
      var merged, traced := DeepMerge(inner, trace0, sub, source, FullKey(prefix, key));
      SectionOverLeaf(Child(Section(target0), key), inner, value);
      return target0[key := Section(merged)], traced;
    case Leaf(_) =>
      assert TraceKeys(value, FullKey(prefix, key)) == {FullKey(prefix, key)} by {
        assert FullPath(FullKey(prefix, key), []) == FullKey(prefix, key);
      }
      return target0[key := value], trace0[FullKey(prefix, key) := source];
    case Unset =>
      return target0, trace0;
  }

  // A section merged into anything but a section starts empty.
  lemma SectionOverLeaf(t: Cfg, inner: Entries, s: Cfg)
    requires inner == EntriesOf(t) && s.Section?
    ensures Merge(Section(inner), s) == Merge(t, s)
  {
    assert EntriesOf(Section(inner)) == EntriesOf(t);
  }

  // What the loop over the source's keys holds once `done` is merged.
  ghost predicate MergedSoFar(t: Entries, tr: Trace, done: Entries, source: Source, prefix: string, target: Entries,
      trace: Trace)
  {
    Section(target) == Merge(Section(t), Section(done)) && trace == tr + TraceOf(Section(done), prefix, source)
  }

  lemma TraceStep(tr: Trace, done: Entries, source: Source, prefix: string, k: string, v: Cfg)
    requires k !in done
    ensures (tr + TraceOf(Section(done), prefix, source)) + TraceOf(v, FullKey(prefix, k), source)
      == tr + TraceOf(Section(done[k := v]), prefix, source)
  {
    TraceEntry(done, k, v, prefix);
  }

  lemma MergedStep(t: Entries, tr: Trace, done: Entries, source: Source, prefix: string, target: Entries, trace: Trace,
      k: string, v: Cfg)
    requires MergedSoFar(t, tr, done, source, prefix, target, trace) && k !in done
    ensures MergedSoFar(t, tr, done[k := v], source, prefix,
      if v == Unset then target else target[k := Merge(Child(Section(target), k), v)],
      trace + TraceOf(v, FullKey(prefix, k), source))
  {
    MergeEntry(t, done, k, v);
    OldChild(t, done, target, k);
    TraceStep(tr, done, source, prefix, k, v);
  }

  // The keys are taken in any order; the result does not depend on it.
  method DeepMerge(target0: Entries, trace0: Trace, sourceData: Entries, source: Source, prefix: string)
    returns (target: Entries, trace: Trace)
    ensures Section(target) == Merge(Section(target0), Section(sourceData))
    ensures trace == trace0 + TraceOf(Section(sourceData), prefix, source)
    decreases Section(sourceData), 0
  {
    target, trace := target0, trace0;
    var todo := sourceData.Keys;
    ghost var done: Entries := map[];
    MergeNothing(target0, prefix, source);
    while todo != {}
      invariant todo <= sourceData.Keys && done.Keys == sourceData.Keys - todo
      invariant forall k :: k in done ==> done[k] == sourceData[k]
      invariant MergedSoFar(target0, trace0, done, source, prefix, target, trace)
    {
      var key :| key in todo;
      var value := sourceData[key];
      MergedStep(target0, trace0, done, source, prefix, target, trace, key, value);
      target, trace := MergeKey(target, trace, key, value, source, prefix);
      todo := todo - {key};
      done := done[key := value];
    }
    assert done == sourceData;
  }

  lemma MergeNothing(t: Entries, prefix: string, source: Source)
    ensures Merge(Section(t), Section(map[])) == Section(t)
    ensures TraceOf(Section(map[]), prefix, source) == map[]
  {
    assert Merge(Section(t), Section(map[])).entries == t;
  }

  // A key not merged yet still holds what the target held.
  lemma OldChild(t: Entries, done: Entries, now: Entries, k: string)
    requires Section(now) == Merge(Section(t), Section(done)) && k !in done
    ensures Child(Section(now), k) == Child(Section(t), k)
  {}

  // ----- full keys identify plain paths ----------------------------------------------------

  ghost function Dots(p: Path): string {
    if p == [] then "" else "." + p[0] + Dots(p[1..])
  }

  lemma {:induction false} FullPathIsDots(prefix: string, p: Path)
    requires prefix != ""
    ensures FullPath(prefix, p) == prefix + Dots(p)
    decreases p
  {
    if p == [] {
    } else {
      FullPathIsDots(prefix + "." + p[0], p[1..]);
      assert prefix + "." + p[0] + Dots(p[1..]) == prefix + ("." + p[0] + Dots(p[1..]));
    }
  }

  ghost function DotIndex(s: string): nat {
    if s == "" || s[0] == '.' then 0 else 1 + DotIndex(s[1..])
  }

  lemma {:induction false} FirstDot(a: string, x: string)
    requires '.' !in a && (x == "" || x[0] == '.')
    ensures DotIndex(a + x) == |a|
  {
    if a == "" {
      assert a + x == x;
    } else {
      assert (a + x)[1..] == a[1..] + x;
      assert a[0] in a;
      FirstDot(a[1..], x);
    }
  }

  lemma SameFirst(a: string, b: string, x: string, y: string)
    requires '.' !in a && '.' !in b && a + x == b + y
    requires (x == "" || x[0] == '.') && (y == "" || y[0] == '.')
    ensures a == b && x == y
  {
    var w := a + x;
    FirstDot(a, x);
    FirstDot(b, y);
    assert a == w[..|a|] && b == w[..|b|];
    assert x == w[|a|..] && y == w[|b|..];
  }

  lemma {:induction false} DotsInjective(p: Path, q: Path)
    requires (forall k :: k in p ==> PlainKey(k)) && (forall k :: k in q ==> PlainKey(k)) && Dots(p) == Dots(q)
    ensures p == q
    decreases p
  {
    if p != [] && q != [] {
      assert p[0] in p && q[0] in q;
      assert Dots(p)[1..] == p[0] + Dots(p[1..]) && Dots(q)[1..] == q[0] + Dots(q[1..]);
      SameFirst(p[0], q[0], Dots(p[1..]), Dots(q[1..]));
      DotsInjective(p[1..], q[1..]);
      assert p == [p[0]] + p[1..] && q == [q[0]] + q[1..];
    }
  }

  lemma FullPathInjective(p: Path, q: Path)
    requires PlainPath(p) && PlainPath(q) && FullPath("", p) == FullPath("", q)
    ensures p == q
  {
    assert PlainKey(p[0]) && PlainKey(q[0]);
    FullPathIsDots(p[0], p[1..]);
    FullPathIsDots(q[0], q[1..]);
    SameFirst(p[0], q[0], Dots(p[1..]), Dots(q[1..]));
    DotsInjective(p[1..], q[1..]);
    assert p == [p[0]] + p[1..] && q == [q[0]] + q[1..];
  }

  // Every key on the way to a set leaf is non-empty and dot-free.
  ghost predicate PlainLeaves(c: Cfg) {
    forall p :: p in LeafPaths(c) ==> PlainPath(p)
  }

  lemma TracedIffLeaf(c: Cfg, p: Path)
    requires PlainLeaves(c) && PlainPath(p)
    ensures FullPath("", p) in TraceKeys(c, "") <==> At(c, p).Leaf?
  {
    LeafPathsMean(c, p);
    if FullPath("", p) in TraceKeys(c, "") {
      var q :| q in LeafPaths(c) && FullPath("", q) == FullPath("", p);
      FullPathInjective(p, q);
    }
  }

  // ----- the three layers -----------------------------------------------------------------------

  datatype Layers = Layers(config: Entries, env: Entries, cli: Entries)
  {
    ghost function Tree(source: Source): Cfg {
      match source
      case Config => Section(config)
      case Env => Section(env)
      case Cli => Section(cli)
    }

    ghost function Merged(): Cfg {
      Merge(Merge(Merge(Section(map[]), Section(config)), Section(env)), Section(cli))
    }

    ghost function Traced(): Trace {
      TraceOf(Section(config), "", Config) + TraceOf(Section(env), "", Env) + TraceOf(Section(cli), "", Cli)
    }

    ghost predicate Plain() {
      PlainLeaves(Section(config)) && PlainLeaves(Section(env)) && PlainLeaves(Section(cli))
    }

    // The highest-priority source with a set leaf at the path.
    ghost function Supplier(p: Path): Option<Source> {
      if At(Section(cli), p).Leaf? then Some(Cli)
      else if At(Section(env), p).Leaf? then Some(Env)
      else if At(Section(config), p).Leaf? then Some(Config)
      else None
    }

    // What that source says.
    ghost function Highest(p: Path): Cfg {
      if Supplier(p).Some? then At(Tree(Supplier(p).value), p) else Unset
    }

    // Some source sets the path, and none above the highest such source cuts it off.
    ghost predicate Kept(p: Path) {
      Supplier(p).Some? && forall s :: Above(s, Supplier(p).value) ==> !Cuts(Tree(s), p)
    }

    ghost predicate Agree() {
      forall a, b, p :: AgreeAt(Tree(a), Tree(b), p)
    }
  }

  predicate Above(a: Source, b: Source) {
    (a == Cli && b != Cli) || (a == Env && b == Config)
  }

  method MergeLayers(layers: Layers) returns (merged: Entries, trace: Trace)
    ensures Section(merged) == layers.Merged()
    ensures trace == layers.Traced()
  {
    var base, baseTrace := DeepMerge(map[], map[], layers.config, Config, "");
    assert baseTrace == TraceOf(Section(layers.config), "", Config);
    var second, secondTrace := DeepMerge(base, baseTrace, layers.env, Env, "");
    merged, trace := DeepMerge(second, secondTrace, layers.cli, Cli, "");
  }

  lemma {:induction false} NothingAt(p: Path)
    ensures !At(Section(map[]), p).Leaf?
  {
    if p != [] { UnsetEverywhere(p[1..]); }
  }

  // ----- which leaves survive ------------------------------------------------------------------

  // Merging `s` removes what the target holds at the path: `s` has a section there,
  // or a leaf strictly above it.
  ghost predicate Cuts(s: Cfg, p: Path)
    decreases p
  {
    if p == [] then s.Section? else s.Leaf? || Cuts(Child(s, p[0]), p[1..])
  }

  lemma {:induction false} CutsMeans(s: Cfg, p: Path)
    ensures Cuts(s, p) <==> At(s, p).Section? || exists n :: 0 <= n < |p| && At(s, p[..n]).Leaf?
    decreases p
  {
    if p == [] {
    } else {
      var k, rest := p[0], p[1..];
      CutsMeans(Child(s, k), rest);
      assert At(s, p[..0]) == s;
      forall n | 0 < n < |p| ensures At(s, p[..n]) == At(Child(s, k), rest[..n - 1]) {
        assert p[..n][1..] == rest[..n - 1];
      }
      if n :| 0 <= n < |rest| && At(Child(s, k), rest[..n]).Leaf? {
        assert At(s, p[..n + 1]).Leaf?;
      }
    }
  }

  // One merge: a leaf comes from the source, or from the target if it is not cut off.
  lemma {:induction false} MergedLeafIff(t: Cfg, s: Cfg, p: Path)
    ensures At(Merge(t, s), p).Leaf? <==> At(s, p).Leaf? || (At(t, p).Leaf? && !Cuts(s, p))
    decreases p
  {
    if p == [] {
    } else {
      match s
      case Unset => NothingCut(p);
      case Leaf(_) => UnsetEverywhere(p[1..]);
      case Section(_) =>
        MergeChild(t, s, p[0]);
        MergedLeafIff(Child(t, p[0]), Child(s, p[0]), p[1..]);
    }
  }

  lemma {:induction false} NothingCut(p: Path)
    ensures !Cuts(Unset, p) && !At(Unset, p).Leaf?
    decreases p
  {
    if p == [] {
    } else {
      NothingCut(p[1..]);
    }
  }

  // The merged tree has a leaf exactly where some source sets one that no higher
  // source cuts off, and its value is the highest source's.
  lemma HighestPriorityWins(l: Layers, p: Path)
    ensures At(l.Merged(), p).Leaf? <==> l.Kept(p)
    ensures l.Kept(p) ==> At(l.Merged(), p) == l.Highest(p)
  {
    var one := Merge(Section(map[]), Section(l.config));
    var two := Merge(one, Section(l.env));
    NothingAt(p);
    MergedLeafIff(Section(map[]), Section(l.config), p);
    MergedLeafIff(one, Section(l.env), p);
    MergedLeafIff(two, Section(l.cli), p);
    assert Above(Cli, Config) && Above(Env, Config) && Above(Cli, Env);
    if At(l.Merged(), p).Leaf? { MergedLeafIsHighest(l, p); }
  }

  lemma MergedLeafIsHighest(l: Layers, p: Path)
    requires At(l.Merged(), p).Leaf?
    ensures l.Highest(p) == At(l.Merged(), p)
  {
    var one := Merge(Section(map[]), Section(l.config));
    var two := Merge(one, Section(l.env));
    MergedLeaf(two, Section(l.cli), p);
    if !At(Section(l.cli), p).Leaf? {
      MergedLeaf(one, Section(l.env), p);
      if !At(Section(l.env), p).Leaf? {
        MergedLeaf(Section(map[]), Section(l.config), p);
        NothingAt(p);
      }
    }
  }

  // ----- what the trace says about a leaf --------------------------------------------------------

  // A source leaves an entry under the path's full key.
  ghost predicate Enters(l: Layers, s: Source, p: Path) {
    FullPath("", p) in TraceKeys(l.Tree(s), "")
  }

  lemma SetPathEnters(l: Layers, s: Source, p: Path)
    requires At(l.Tree(s), p).Leaf?
    ensures Enters(l, s, p)
  {
    LeafPathsMean(l.Tree(s), p);
  }

  // The entry names the highest source that enters the full key.
  lemma EntryIsHighest(l: Layers, p: Path, s: Source)
    requires Enters(l, s, p)
    ensures FullPath("", p) in l.Traced()
    ensures l.Traced()[FullPath("", p)] == s <==> forall h :: Above(h, s) ==> !Enters(l, h, p)
  {
    var f := FullPath("", p);
    assert f in TraceOf(l.Tree(s), "", s);
    assert Above(Cli, Config) && Above(Env, Config) && Above(Cli, Env);
    assert f in l.Traced() && l.Traced()[f] ==
      if Enters(l, Cli, p) then Cli else if Enters(l, Env, p) then Env else Config;
  }

  // Every merged leaf has an entry, and the entry names its supplier exactly when no
  // higher source has a leaf with the same full key.
  lemma LeafTracedIff(l: Layers, p: Path)
    requires At(l.Merged(), p).Leaf?
    ensures l.Supplier(p).Some? && At(l.Tree(l.Supplier(p).value), p) == At(l.Merged(), p)
    ensures FullPath("", p) in l.Traced()
    ensures l.Traced()[FullPath("", p)] == l.Supplier(p).value
      <==> forall h :: Above(h, l.Supplier(p).value) ==> !Enters(l, h, p)
  {
    HighestPriorityWins(l, p);
    SetPathEnters(l, l.Supplier(p).value, p);
    EntryIsHighest(l, p, l.Supplier(p).value);
  }

  lemma HighestIsPlain(l: Layers, p: Path)
    requires l.Plain() && l.Supplier(p).Some?
    ensures PlainPath(p)
  {
    LeafPathsMean(Section(l.config), p);
    LeafPathsMean(Section(l.env), p);
    LeafPathsMean(Section(l.cli), p);
  }

  // Without dots or empty keys on the way to a leaf, the supplier is always named.
  lemma LeavesTraced(l: Layers, p: Path)
    requires l.Plain() && At(l.Merged(), p).Leaf?
    ensures FullPath("", p) in l.Traced() && Some(l.Traced()[FullPath("", p)]) == l.Supplier(p)
  {
    LeafTracedIff(l, p);
    forall h | Above(h, l.Supplier(p).value) ensures !Enters(l, h, p) { NoHigherEntry(l, h, p); }
  }

  lemma NoHigherEntry(l: Layers, h: Source, p: Path)
    requires l.Plain() && l.Supplier(p).Some? && Above(h, l.Supplier(p).value)
    ensures !Enters(l, h, p)
  {
    HighestIsPlain(l, p);
    TracedIffLeaf(l.Tree(h), p);
  }

  // An empty section name: the merged leaf "a" is the config file's, and its entry
  // names the environment.
  lemma EmptyKeyMistraces(l: Layers)
    requires l == Layers(map["a" := Leaf("1")], map["" := Section(map["a" := Leaf("2")])], map[])
    ensures At(l.Merged(), ["a"]) == Leaf("1") && l.Supplier(["a"]) == Some(Config)
    ensures "a" in l.Traced() && l.Traced()["a"] == Env
  {
    EmptyKeyMerges(l);
    EmptyKeyEnters(l);
    NoLeafPaths(l);
    assert FullPath("", ["a"]) == "a";
    EntryIsHighest(l, ["a"], Env);
  }

  lemma EmptyKeyMerges(l: Layers)
    requires l == Layers(map["a" := Leaf("1")], map["" := Section(map["a" := Leaf("2")])], map[])
    ensures At(l.Merged(), ["a"]) == Leaf("1") && l.Supplier(["a"]) == Some(Config)
  {
    var p := ["a"];
    assert p[1..] == [];
    assert At(l.Tree(Config), p) == Leaf("1") && At(l.Tree(Env), p) == Unset && At(l.Tree(Cli), p) == Unset;
    assert Cuts(l.Tree(Env), p) == Cuts(Unset, []) && Cuts(l.Tree(Cli), p) == Cuts(Unset, []);
    HighestPriorityWins(l, p);
  }

  lemma EmptyKeyEnters(l: Layers)
    requires l.env == map["" := Section(map["a" := Leaf("2")])]
    ensures Enters(l, Env, ["a"])
  {
    var p, q := ["a"], ["", "a"];
    assert p[1..] == [] && q[1..] == p;
    assert At(l.Tree(Env), q) == At(Section(map["a" := Leaf("2")]), p) == Leaf("2");
    assert FullPath("", q) == FullPath("", p);
    LeafPathsMean(l.Tree(Env), q);
  }

  lemma NoLeafPaths(l: Layers)
    requires l.cli == map[]
    ensures forall p :: !Enters(l, Cli, p)
  {
    assert LeafPaths(l.Tree(Cli)) == {};
  }

  // ----- when the trace is exact --------------------------------------------------------------------

  // The trace has the keys of the merged leaves and no others exactly when every path
  // a source sets shares its full key with a path that survives.
  lemma TraceExactIffKeysSurvive(l: Layers)
    ensures l.Traced().Keys == TraceKeys(l.Merged(), "")
      <==> forall p :: l.Supplier(p).Some? ==> exists q :: l.Kept(q) && FullPath("", q) == FullPath("", p)
  {
    forall f ensures f in TraceKeys(l.Merged(), "") <==> exists q :: l.Kept(q) && FullPath("", q) == f {
      MergedKeyIff(l, f);
    }
    forall f ensures f in l.Traced() <==> exists p :: l.Supplier(p).Some? && FullPath("", p) == f {
      TracedKeyIff(l, f);
    }
    forall p | l.Kept(p) ensures l.Supplier(p).Some? {}
    if l.Traced().Keys == TraceKeys(l.Merged(), "") {
      forall p | l.Supplier(p).Some? ensures exists q :: l.Kept(q) && FullPath("", q) == FullPath("", p) {
        assert FullPath("", p) in l.Traced();
      }
    }
  }

  lemma MergedKeyIff(l: Layers, f: string)
    ensures f in TraceKeys(l.Merged(), "") <==> exists q :: l.Kept(q) && FullPath("", q) == f
  {
    if f in TraceKeys(l.Merged(), "") {
      var q :| q in LeafPaths(l.Merged()) && f == FullPath("", q);
      LeafPathsMean(l.Merged(), q);
      HighestPriorityWins(l, q);
    }
    if q :| l.Kept(q) && FullPath("", q) == f {
      LeafPathsMean(l.Merged(), q);
      HighestPriorityWins(l, q);
    }
  }

  lemma TracedKeyIff(l: Layers, f: string)
    ensures f in l.Traced() <==> exists p :: l.Supplier(p).Some? && FullPath("", p) == f
  {
    if s :| f in TraceKeys(l.Tree(s), "") {
      var p :| p in LeafPaths(l.Tree(s)) && f == FullPath("", p);
      LeafPathsMean(l.Tree(s), p);
      assert l.Supplier(p).Some?;
    } else {
      assert f !in TraceKeys(l.Tree(Cli), "") && f !in TraceKeys(l.Tree(Env), "")
        && f !in TraceKeys(l.Tree(Config), "");
    }
    if p :| l.Supplier(p).Some? && FullPath("", p) == f {
      SetPathEnters(l, l.Supplier(p).value, p);
      EntryIsHighest(l, p, l.Supplier(p).value);
    }
  }

  // Without dots or empty keys: exactly when no set path is cut off by a source above
  // the highest one that sets it.
  lemma TraceExactIff(l: Layers)
    requires l.Plain()
    ensures l.Traced().Keys == TraceKeys(l.Merged(), "") <==> forall p :: l.Supplier(p).Some? ==> l.Kept(p)
  {
    TraceExactIffKeysSurvive(l);
    forall p, q | l.Supplier(p).Some? && l.Kept(q) && FullPath("", q) == FullPath("", p) ensures q == p {
      HighestIsPlain(l, p);
      HighestIsPlain(l, q);
      FullPathInjective(p, q);
    }
  }

  // A trace entry that outlives its leaf: a section from the environment replaced the
  // leaf "a" of the config file.
  lemma StaleTraceEntry()
    ensures
      var l := Layers(map["a" := Leaf("1")], map["a" := Section(map["b" := Leaf("2")])], map[]);
      "a" in l.Traced() && !At(l.Merged(), ["a"]).Leaf?
  {
    var l := Layers(map["a" := Leaf("1")], map["a" := Section(map["b" := Leaf("2")])], map[]);
    var p := ["a"];
    assert p[1..] == [];
    assert At(l.Tree(Config), p) == Leaf("1") && At(l.Tree(Env), p).Section? && At(l.Tree(Cli), p) == Unset;
    assert Cuts(l.Tree(Env), p) && l.Supplier(p) == Some(Config) && Above(Env, Config);
    HighestPriorityWins(l, p);
    assert FullPath("", p) == "a";
    TracedKeyIff(l, "a");
  }

  // Agreeing is not needed: a leaf over an empty section is no stale entry.
  lemma ExactWithoutAgreement()
    ensures
      var l := Layers(map["a" := Section(map[])], map["a" := Leaf("1")], map[]);
      !l.Agree() && l.Traced().Keys == TraceKeys(l.Merged(), "")
  {
    var l := Layers(map["a" := Section(map[])], map["a" := Leaf("1")], map[]);
    assert ["a"][1..] == [];
    assert !AgreeAt(l.Tree(Config), l.Tree(Env), ["a"]);
    forall p | l.Supplier(p).Some? ensures l.Kept(p) {
      assert LeafPaths(Section(map[])) == {} && LeafPaths(l.Tree(Cli)) == {};
      LeafPathsMean(l.Tree(Config), p);
      LeafPathsMean(l.Tree(Cli), p);
      assert l.Supplier(p) == Some(Env);
      NotCutByNothing(p);
    }
    TraceExactIffKeysSurvive(l);
  }

  lemma NotCutByNothing(p: Path)
    ensures Cuts(Section(map[]), p) <==> p == []
  {
    if p != [] { NothingCut(p[1..]); }
  }

  // ----- where the sources agree on what is a section ---------------------------------------------------

  ghost predicate AgreeAt(a: Cfg, b: Cfg, p: Path) {
    !(At(a, p).Leaf? && At(b, p).Section?) && !(At(a, p).Section? && At(b, p).Leaf?)
  }

  lemma {:induction false} AboveLeafIsSection(c: Cfg, p: Path, n: nat)
    requires At(c, p).Leaf? && n < |p|
    ensures At(c, p[..n]).Section?
    decreases p
  {
    if !c.Section? { UnsetEverywhere(p[1..]); }
    if n > 0 {
      assert p[..n][1..] == p[1..][..n - 1];
      AboveLeafIsSection(Child(c, p[0]), p[1..], n - 1);
    }
  }

  // With agreement nothing a source sets is cut off.
  lemma AgreementKeepsAll(l: Layers, p: Path)
    requires l.Agree()
    ensures l.Kept(p) <==> l.Supplier(p).Some?
    ensures l.Supplier(p).Some? ==> At(l.Merged(), p) == l.Highest(p)
  {
    if l.Supplier(p).Some? {
      var t := l.Tree(l.Supplier(p).value);
      forall s | Above(s, l.Supplier(p).value) ensures !Cuts(l.Tree(s), p) {
        CutsMeans(l.Tree(s), p);
        assert AgreeAt(l.Tree(s), t, p);
        forall n | 0 <= n < |p| ensures !At(l.Tree(s), p[..n]).Leaf? {
          AboveLeafIsSection(t, p, n);
          assert AgreeAt(l.Tree(s), t, p[..n]);
        }
      }
      HighestPriorityWins(l, p);
    }
  }

  // ----- dotted overrides -------------------------------------------------------------------------

  // `key.split(".")`
  function SplitKey(key: string): (parts: Path)
    ensures parts != []
  {
    if '.' !in key then [key] else
      var i := Find(key, '.');
      [key[..i]] + SplitKey(key[i + 1..])
  }

  // The parts hold no dot, and joined with dots they spell the key.
  lemma {:induction false} SplitKeyMeans(key: string)
    ensures forall part :: part in SplitKey(key) ==> '.' !in part
    ensures key == SplitKey(key)[0] + Dots(SplitKey(key)[1..])
    decreases |key|
  {
    if '.' in key {
      var i := Find(key, '.');
      SplitKeyMeans(key[i + 1..]);
      DotsOfSplit(key, i, SplitKey(key[i + 1..]));
    } else {
      assert SplitKey(key)[1..] == [];
    }
  }

  lemma DotsOfSplit(key: string, i: nat, rest: Path)
    requires i < |key| && key[i] == '.' && rest != [] && key[i + 1..] == rest[0] + Dots(rest[1..])
    ensures key == key[..i] + Dots(rest)
  {
    assert Dots(rest) == "." + (rest[0] + Dots(rest[1..]));
    assert key == key[..i] + ("." + key[i + 1..]);
  }

  // A key is the full key of its own path exactly when it does not begin with a dot.
  lemma SplitKeyIsFullPath(key: string)
    ensures FullPath("", SplitKey(key)) == key <==> key == "" || key[0] != '.'
  {
    var p := SplitKey(key);
    SplitKeyMeans(key);
    if p[0] != "" {
      FullPathIsDots(p[0], p[1..]);
      assert p[0][0] in p[0];
    } else if |p| > 1 {
      assert Dots(p[1..])[0] == '.';
      FullPathShrinks(p[1..]);
    } else {
      assert p[1..] == [];
    }
  }

  // A leading empty key leaves no mark on the full key.
  lemma {:induction false} FullPathShrinks(p: Path)
    ensures |FullPath("", p)| <= |Dots(p)|
    ensures p != [] ==> |FullPath("", p)| < |Dots(p)|
    decreases p
  {
    if p == [] {
    } else {
      if p[0] == "" { FullPathShrinks(p[1..]); } else { FullPathIsDots(p[0], p[1..]); }
    }
  }

  // Sets a leaf, making sections on the way and replacing what is not one.
  function SetAt(c: Cfg, p: Path, value: string): Cfg
    requires p != []
    decreases p
  {
    Section(EntriesOf(c)[p[0] := if |p| == 1 then Leaf(value) else SetAt(Child(c, p[0]), p[1..], value)])
  }

  // A dotted key and its value, None for a flag that was not given.
  type Override = (string, Option<string>)

  ghost function Nest(overrides: seq<Override>): Cfg {
    if overrides == [] then Section(map[]) else
      var before, last := Nest(overrides[..|overrides| - 1]), Last(overrides);
      if last.1 == None then before else SetAt(before, SplitKey(last.0), last.1.value)
  }

  method DottedToNested(overrides: seq<Override>) returns (result: Entries)
    ensures Section(result) == Nest(overrides)
  {
    result := map[];
    for i := 0 to |overrides|
      invariant Section(result) == Nest(overrides[..i])
    {
      assert overrides[..i + 1][..i] == overrides[..i] && Last(overrides[..i + 1]) == overrides[i];
      if overrides[i].1.Some? {
        var updated := SetAt(Section(result), SplitKey(overrides[i].0), overrides[i].1.value);
        result := updated.entries;
      }
    }
    assert overrides[..|overrides|] == overrides;
  }

  lemma {:induction false} SetAtHere(c: Cfg, p: Path, value: string)
    requires p != []
    ensures At(SetAt(c, p, value), p) == Leaf(value)
    decreases p
  {
    if |p| > 1 { SetAtHere(Child(c, p[0]), p[1..], value); }
  }

  lemma {:induction false} SetAtElsewhere(c: Cfg, p: Path, value: string, q: Path)
    requires p != [] && q != p
    ensures p <= q ==> !At(SetAt(c, p, value), q).Leaf?
    ensures q <= p ==> !At(SetAt(c, p, value), q).Leaf?
    ensures !(p <= q) && !(q <= p) ==> At(SetAt(c, p, value), q) == At(c, q)
    decreases p
  {
    if q == [] {
    } else {
      assert p == [p[0]] + p[1..] && q == [q[0]] + q[1..];
      UnsetEverywhere(q[1..]);
      if q[0] == p[0] {
        if |p| == 1 {
          if |q| > 1 { UnsetEverywhere(q[1..][1..]); }
        } else if q[1..] != p[1..] {
          SetAtElsewhere(Child(c, p[0]), p[1..], value, q[1..]);
        }
      }
    }
  }

  // Setting the override's path removes or replaces what the path holds.
  ghost predicate Clashes(o: Override, p: Path) {
    o.1.Some? && (SplitKey(o.0) <= p || p <= SplitKey(o.0))
  }

  // The override sets the path to the value, and nothing after it clashes.
  ghost predicate Lands(overrides: seq<Override>, p: Path, value: string, i: int) {
    && 0 <= i < |overrides| && SplitKey(overrides[i].0) == p && overrides[i].1 == Some(value)
    && forall j :: i < j < |overrides| ==> !Clashes(overrides[j], p)
  }

  lemma LandsSnoc(front: seq<Override>, last: Override, p: Path, value: string)
    ensures (exists i :: Lands(front + [last], p, value, i))
      <==>
        || (SplitKey(last.0) == p && last.1 == Some(value))
        || ((exists i :: Lands(front, p, value, i)) && !Clashes(last, p))
  {
    var all := front + [last];
    if i :| Lands(all, p, value, i) {
      if i < |front| {
        assert !Clashes(all[|front|], p);
        assert forall j :: i < j < |front| ==> all[j] == front[j];
        assert Lands(front, p, value, i);
      }
    }
    if SplitKey(last.0) == p && last.1 == Some(value) { assert Lands(all, p, value, |front|); }
    if i :| Lands(front, p, value, i) {
      if !Clashes(last, p) { assert Lands(all, p, value, i); }
    }
  }

  // A path holds a value exactly when some override sets it there and no later one
  // names a place at, above or below it.
  lemma {:induction false} OverridesLand(overrides: seq<Override>, p: Path, value: string)
    ensures At(Nest(overrides), p) == Leaf(value) <==> exists i :: Lands(overrides, p, value, i)
  {
    if overrides == [] {
      NothingAt(p);
    } else {
      var front, last := overrides[..|overrides| - 1], Last(overrides);
      assert overrides == front + [last];
      OverridesLand(front, p, value);
      LandsSnoc(front, last, p, value);
      if last.1.Some? {
        SetAtHere(Nest(front), SplitKey(last.0), last.1.value);
        if p != SplitKey(last.0) { SetAtElsewhere(Nest(front), SplitKey(last.0), last.1.value, p); }
      }
    }
  }
}
