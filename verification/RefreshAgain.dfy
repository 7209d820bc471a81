// What a refresh leaves for the next one: whether a dataset shows drift, and what reading
// the same pages again does.
// Source: connector/usecases/cache_refresh_service.py and
// connector/infra/cache/backends/sqlite/handlers/generic_handler.py
module RefreshAgain {
  import opened Basics
  import opened CacheRefresh
  import opened CacheStore
  import opened MetaLookup

  // ----- drift after a refresh -------------------------------------------------------------------

  // Right after a refresh a dataset of the plan can show drift exactly when a dataset of
  // a like name has another hash on record.
  lemma DriftAfterRefreshIff(job: Job, before: Cache, after: Cache, stats: seq<Stats>, d: string)
    requires Refreshed(job, before, after, stats) && d in job.plan && PlainNames(after) && IsDatasetName(d)
    ensures (exists facts :: IsLookup(after, d, facts) && ShowsDrift(facts, job.schemas.Expected(d)))
      <==> HasRivalHash(job, after, d)
  {
    var expected := job.schemas.Expected(d);
    OwnHashRecorded(job, before, after, stats, d);
    if facts :| IsLookup(after, d, facts) && ShowsDrift(facts, expected) {
      var e :| Selects(after, d, e, "schema_hash") && facts["schema_hash"] == after.meta[e]["schema_hash"];
      SelectsAlike(after, d, e, "schema_hash");
      assert ShowsDrift(after.meta[e], expected) && e != d;
    }
    if e :| e in after.meta && e != d && Alike(d, e) && ShowsDrift(after.meta[e], expected) {
      SelectsAlike(after, d, e, "schema_hash");
      var facts := RivalLookup(after, d, e, "schema_hash");
      assert ShowsDrift(facts, expected);
    }
  }

  ghost predicate HasRivalHash(job: Job, c: Cache, d: string) {
    exists e :: e in c.meta && e != d && Alike(d, e) && ShowsDrift(c.meta[e], job.schemas.Expected(d))
  }

  // No dataset of the plan, read as the database reads, has a dataset of a like name with
  // another hash beside it.
  ghost predicate Unrivalled(job: Job, c: Cache) {
    PlainNames(c) && forall d :: d in job.plan ==>
      IsDatasetName(d) && IsLookup(c, d, job.schemas.read(c, d)) && !HasRivalHash(job, c, d)
  }

  lemma OwnHashRecorded(job: Job, before: Cache, after: Cache, stats: seq<Stats>, d: string)
    requires Refreshed(job, before, after, stats) && d in job.plan
    ensures !ShowsDrift(MetaOf(after, d), job.schemas.Expected(d))
  {
    var i :| 0 <= i < |job.plan| && job.plan[i] == d;
    assert DatasetRefreshed(job, before, after, job.plan[i], stats[i]);
    HashStamped(job, d, stats[i], MetaOf(before, d), |after.rows[d]|);
  }

  // So without such a dataset, however the database orders its answers, nothing of the
  // plan is drifted and no policy rebuilds anything.
  lemma NoDriftAfterRefresh(job: Job, before: Cache, after: Cache, stats: seq<Stats>)
    requires Refreshed(job, before, after, stats) && Unrivalled(job, after)
    ensures !AnyDrift(after, job.schemas, job.plan)
    ensures forall policy :: AfterDrift(after, job.schemas, policy, job.plan) == after
  {
    forall d | d in job.plan ensures !Drifted(after, job.schemas, d) {
      DriftAfterRefreshIff(job, before, after, stats, d);
    }
    NoDriftRebuildsNothing(after, job.schemas, job.plan);
  }

  lemma NoDriftRebuildsNothing(c: Cache, schemas: Schemas, scope: seq<string>)
    requires !AnyDrift(c, schemas, scope)
    ensures forall policy :: AfterDrift(c, schemas, policy, scope) == c
  {
    forall policy ensures AfterDrift(c, schemas, policy, scope) == c {
      assert AfterDrift(c, schemas, policy, scope).rows == c.rows;
    }
  }

  // `a_b` reads the hash of `axb`: a dataset just refreshed shows drift.
  lemma LookalikeDrifts(job: Job, before: Cache, after: Cache, stats: seq<Stats>, other: string)
    requires Refreshed(job, before, after, stats) && job.plan == ["a_b"] && PlainNames(after)
    requires "axb" in before.meta && "schema_hash" in before.meta["axb"]
    requires before.meta["axb"]["schema_hash"] == Text(other) && other != ""
    requires job.schemas.Expected("a_b") !in {"", other}
    ensures exists facts :: IsLookup(after, "a_b", facts) && ShowsDrift(facts, job.schemas.Expected("a_b"))
  {
    assert "axb" != "a_b" by { assert "axb"[1] != "a_b"[1]; }
    assert MetaOf(after, "axb") == MetaOf(before, "axb");
    assert Alike("a_b", "axb");
    assert ShowsDrift(after.meta["axb"], job.schemas.Expected("a_b"));
    DriftAfterRefreshIff(job, before, after, stats, "a_b");
  }

  // ----- reading the same pages again --------------------------------------------------------------

  // The entries of the table with these written over it.
  ghost function Overlay(t: Table, es: seq<Entry>): Table {
    if es == [] then t else Overlay(t, es[..|es| - 1])[Last(es).id := Last(es).row]
  }

  lemma {:induction false} PlayOverlays(before: Table, wishes: seq<Fate>)
    ensures Play(before, wishes).table == Overlay(before, Entries(Outcomes(before, wishes)))
  {
    if wishes == [] {
    } else {
      var front := wishes[..|wishes| - 1];
      var p := Play(before, front);
      PlayOverlays(before, front);
      FateOverlays(before, p, Outcomes(before, front), Settle(p.table, Last(wishes)));
    }
  }

  lemma FateOverlays(before: Table, p: Progress, fates: seq<Fate>, fate: Fate)
    requires p.table == Overlay(before, Entries(fates))
    ensures Apply(p, fate).table == Overlay(before, Entries(fates + [fate]))
  {
    var es := Entries(fates);
    FateCountsSnoc(fates, fate);
    if fate.Stored? {
      assert (es + [fate.entry])[..|es|] == es;
    } else {
      assert es + [] == es;
    }
  }

  // The outcomes of two readings agree exactly when, after what the first wrote up to an
  // item is written over each table, both tables answer alike to the item.
  ghost predicate AnswersAlike(a: Table, b: Table, wishes: seq<Fate>, i: nat)
    requires i < |wishes|
  {
    var es := Entries(Outcomes(a, wishes[..i]));
    Settle(Overlay(b, es), wishes[i]) == Settle(Overlay(a, es), wishes[i])
  }

  ghost predicate AllAlike(a: Table, b: Table, wishes: seq<Fate>) {
    forall i :: 0 <= i < |wishes| ==> AnswersAlike(a, b, wishes, i)
  }

  lemma AlikeSnoc(a: Table, b: Table, front: seq<Fate>, wish: Fate)
    ensures AllAlike(a, b, front + [wish]) <==> AllAlike(a, b, front) && AnswersAlike(a, b, front + [wish], |front|)
  {
    var wishes := front + [wish];
    forall i | 0 <= i < |front| ensures AnswersAlike(a, b, wishes, i) <==> AnswersAlike(a, b, front, i) {
      assert wishes[..i] == front[..i];
    }
  }

  lemma LastAlike(a: Table, b: Table, front: seq<Fate>, wish: Fate)
    requires Outcomes(b, front) == Outcomes(a, front)
    ensures AnswersAlike(a, b, front + [wish], |front|)
      <==> Settle(Play(b, front).table, wish) == Settle(Play(a, front).table, wish)
  {
    PlayOverlays(a, front);
    PlayOverlays(b, front);
    assert (front + [wish])[..|front|] == front;
  }

  lemma {:induction false} RepeatsIff(a: Table, b: Table, wishes: seq<Fate>)
    ensures Outcomes(b, wishes) == Outcomes(a, wishes) <==> AllAlike(a, b, wishes)
  {
    if wishes == [] {
    } else {
      var front, wish := wishes[..|wishes| - 1], Last(wishes);
      assert wishes == front + [wish];
      RepeatsIff(a, b, front);
      AlikeSnoc(a, b, front, wish);
      SameSnoc(Outcomes(b, front), Settle(Play(b, front).table, wish),
        Outcomes(a, front), Settle(Play(a, front).table, wish));
      if Outcomes(b, front) == Outcomes(a, front) { LastAlike(a, b, front, wish); }
    }
  }

  lemma SameSnoc(s: seq<Fate>, x: Fate, t: seq<Fate>, y: Fate)
    requires |s| == |t|
    ensures s + [x] == t + [y] <==> s == t && x == y
  {
    if s + [x] == t + [y] {
      assert (s + [x])[..|s|] == s && (t + [y])[..|t|] == t;
      assert (s + [x])[|s|] == x && (t + [y])[|t|] == y;
    }
  }

  // No id comes twice.
  ghost predicate DistinctIds(wishes: seq<Fate>) {
    forall i, j :: 0 <= i < j < |wishes| && wishes[i].Stored? && wishes[j].Stored? ==>
      wishes[i].entry.id != wishes[j].entry.id
  }

  // An item that the table refused.
  ghost predicate RefusedAt(a: Table, wishes: seq<Fate>, i: nat)
    requires i < |wishes|
  {
    wishes[i].Stored? && Outcomes(a, wishes)[i].Rejected?
  }

  ghost predicate RefusedAgain(a: Table, b: Table, wishes: seq<Fate>, i: nat)
    requires i < |wishes|
  {
    RefusedAt(a, wishes, i) ==> Refuses(b, wishes[i].entry)
  }

  // Whatever was refused in a reading from `a` would be refused by `b`.
  ghost predicate StillRefused(a: Table, b: Table, wishes: seq<Fate>) {
    forall i :: 0 <= i < |wishes| ==> RefusedAgain(a, b, wishes, i)
  }

  // A row nobody else writes is the one the item wrote, or the one that was there.
  lemma {:induction false} RowAfter(t: Table, wishes: seq<Fate>, i: nat, n: nat)
    requires i < |wishes| && n <= |wishes| && DistinctIds(wishes) && wishes[i].Stored?
    ensures
      var after, id := Play(t, wishes[..n]).table, wishes[i].entry.id;
      if i < n && Outcomes(t, wishes)[i].Stored? then id in after && after[id] == wishes[i].entry.row
      else (id in after <==> id in t) && (id in t ==> after[id] == t[id])
  {
    if n == 0 {
    } else {
      RowAfter(t, wishes, i, n - 1);
      OutcomesPrefix(t, wishes, n - 1);
      assert wishes[..n][..n - 1] == wishes[..n - 1];
      assert wishes[n - 1].Stored? && n - 1 != i ==> wishes[n - 1].entry.id != wishes[i].entry.id;
    }
  }

  // An accepted item finds its row in the final table, which takes it again.
  lemma AcceptedAgain(a: Table, wishes: seq<Fate>, i: nat)
    requires i < |wishes| && DistinctIds(wishes) && ClashFree(a) && Outcomes(a, wishes)[i].Stored?
    ensures
      var b := Play(a, wishes).table;
      wishes[i].Stored? && Settle(b, wishes[i]) == wishes[i] && Outcomes(a, wishes)[i] == wishes[i]
      && b[wishes[i].entry.id := wishes[i].entry.row] == b
  {
    OutcomesPrefix(a, wishes, i);
    assert wishes[..|wishes|] == wishes;
    RowAfter(a, wishes, i, |wishes|);
    PlayKeepsClashFree(a, wishes);
    StoredAccepted(Play(a, wishes).table, wishes[i].entry);
  }

  // While every refusal so far repeats, the second reading does not move the table.
  lemma {:induction false} SteadyPrefix(a: Table, wishes: seq<Fate>, n: nat)
    requires n <= |wishes| && DistinctIds(wishes) && ClashFree(a)
    requires forall i :: 0 <= i < n ==> RefusedAgain(a, Play(a, wishes).table, wishes, i)
    ensures
      var b := Play(a, wishes).table;
      Play(b, wishes[..n]).table == b && Outcomes(b, wishes)[..n] == Outcomes(a, wishes)[..n]
  {
    if n == 0 {
    } else {
      var b := Play(a, wishes).table;
      SteadyPrefix(a, wishes, n - 1);
      OutcomesPrefix(a, wishes, n - 1);
      OutcomesPrefix(b, wishes, n - 1);
      assert wishes[..n][..n - 1] == wishes[..n - 1];
      if Outcomes(a, wishes)[n - 1].Stored? {
        AcceptedAgain(a, wishes, n - 1);
      } else {
        assert RefusedAgain(a, b, wishes, n - 1);
      }
      assert Outcomes(b, wishes)[n - 1] == Outcomes(a, wishes)[n - 1];
      assert Outcomes(b, wishes)[..n] == Outcomes(b, wishes)[..n - 1] + [Outcomes(b, wishes)[n - 1]];
      assert Outcomes(a, wishes)[..n] == Outcomes(a, wishes)[..n - 1] + [Outcomes(a, wishes)[n - 1]];
    }
  }

  // The first item refused in the first reading that the table now takes.
  lemma {:induction false} FirstTaken(a: Table, b: Table, wishes: seq<Fate>, n: nat) returns (i: nat)
    requires n < |wishes| && !RefusedAgain(a, b, wishes, n)
    ensures i < |wishes| && !RefusedAgain(a, b, wishes, i)
    ensures forall j :: 0 <= j < i ==> RefusedAgain(a, b, wishes, j)
  {
    if j :| 0 <= j < n && !RefusedAgain(a, b, wishes, j) {
      i := FirstTaken(a, b, wishes, j);
    } else {
      i := n;
    }
  }

  // It changes its outcome, and its row.
  lemma TakenChanges(a: Table, wishes: seq<Fate>, i: nat)
    requires i < |wishes| && DistinctIds(wishes) && ClashFree(a)
    requires !RefusedAgain(a, Play(a, wishes).table, wishes, i)
    requires forall j :: 0 <= j < i ==> RefusedAgain(a, Play(a, wishes).table, wishes, j)
    ensures
      var b := Play(a, wishes).table;
      Outcomes(b, wishes)[i] != Outcomes(a, wishes)[i] && Play(b, wishes).table != b
  {
    var b, e := Play(a, wishes).table, wishes[i].entry;
    SteadyPrefix(a, wishes, i);
    OutcomesPrefix(a, wishes, i);
    OutcomesPrefix(b, wishes, i);
    assert wishes[..|wishes|] == wishes;
    RowAfter(a, wishes, i, i);
    RowAfter(a, wishes, i, |wishes|);
    RowAfter(b, wishes, i, |wishes|);
    PlayKeepsClashFree(a, wishes[..i]);
    var turn := Play(a, wishes[..i]).table;
    if e.id in b && b[e.id] == e.row { StoredAccepted(turn, e); }
  }

  // For distinct ids and a table without clashes: a second reading repeats every outcome,
  // and changes no row, exactly when whatever the first refused still clashes with what it
  // left.
  lemma SteadyIff(a: Table, wishes: seq<Fate>)
    requires DistinctIds(wishes) && ClashFree(a)
    ensures
      var b := Play(a, wishes).table;
      && (Outcomes(b, wishes) == Outcomes(a, wishes) <==> StillRefused(a, b, wishes))
      && (Play(b, wishes).table == b <==> StillRefused(a, b, wishes))
  {
    var b := Play(a, wishes).table;
    if StillRefused(a, b, wishes) {
      SteadyPrefix(a, wishes, |wishes|);
      assert wishes[..|wishes|] == wishes;
      assert Outcomes(b, wishes)[..|wishes|] == Outcomes(b, wishes);
      assert Outcomes(a, wishes)[..|wishes|] == Outcomes(a, wishes);
    } else {
      var n :| 0 <= n < |wishes| && !RefusedAgain(a, b, wishes, n);
      var i := FirstTaken(a, b, wishes, n);
      TakenChanges(a, wishes, i);
    }
  }

  // ----- a second refresh --------------------------------------------------------------------------

  lemma PlayTwice(wishes: seq<Fate>, a: Table, b: Table, c: Table, first: Counters, second: Counters)
    requires Progress(first, b) == Play(a, wishes) && Progress(second, c) == Play(b, wishes)
    requires Outcomes(b, wishes) == Outcomes(a, wishes)
    ensures c == b && SettledAgain(first, second)
  {
    PlayAccounted(first, wishes, a, b);
    PlayAccounted(second, wishes, b, c);
    var es := Entries(Outcomes(a, wishes));
    OverlayTwice(a, b, c, es);
    assert Ids(es) - b.Keys == {};
  }

  // What was inserted or updated is now updated; the other counts repeat.
  ghost predicate SettledAgain(first: Counters, second: Counters) {
    second == Counters(0, first.inserted + first.updated, first.failed, first.skipped)
  }

  // Two refreshes of the same pages, each with its own policy, hashes, run id and clock.
  ghost predicate SameWork(x: Job, y: Job) {
    && x.plan == y.plan && x.source == y.source
    && x.deletedByDefault == y.deletedByDefault && x.run.includeDeleted == y.run.includeDeleted
  }

  // The second refresh starts from the tables the first left.
  ghost predicate NothingRebuilt(job: Job, before: Cache) {
    forall d :: d in job.plan ==> !RebuildsTable(before, job.schemas, job.policy, job.plan, d)
  }

  lemma DatasetTwice(x: Job, y: Job, a: Cache, b: Cache, c: Cache, first: seq<Stats>, second: seq<Stats>, i: nat)
    requires Refreshed(x, a, b, first) && Refreshed(y, b, c, second) && SameWork(x, y) && NothingRebuilt(y, b)
    requires i < |x.plan|
    ensures
      var d := x.plan[i];
      && d in a.rows && d in b.rows && d in c.rows && BaseTable(y, b, d) == b.rows[d]
      && Progress(first[i].counters, b.rows[d]) == Play(BaseTable(x, a, d), x.WishesFor(d))
      && Progress(second[i].counters, c.rows[d]) == Play(b.rows[d], x.WishesFor(d))
  {
    var d := x.plan[i];
    assert DatasetRefreshed(x, a, b, d, first[i]) && DatasetRefreshed(y, b, c, d, second[i]);
    assert d in y.plan;
  }

  // When the second reading repeats the outcomes, no row changes and what was inserted is
  // now updated.
  lemma RefreshTwice(x: Job, y: Job, a: Cache, b: Cache, c: Cache, first: seq<Stats>, second: seq<Stats>)
    requires Refreshed(x, a, b, first) && Refreshed(y, b, c, second) && SameWork(x, y) && NothingRebuilt(y, b)
    requires forall d :: d in x.plan && d in a.rows && d in b.rows ==> OutcomesOf(y, b, d) == OutcomesOf(x, a, d)
    ensures c.rows == b.rows
    ensures forall i :: 0 <= i < |x.plan| ==> SettledAgain(first[i].counters, second[i].counters)
  {
    forall i | 0 <= i < |x.plan|
      ensures SettledAgain(first[i].counters, second[i].counters)
      ensures x.plan[i] in b.rows && x.plan[i] in c.rows && c.rows[x.plan[i]] == b.rows[x.plan[i]]
    {
      DatasetTwice(x, y, a, b, c, first, second, i);
      var d := x.plan[i];
      assert OutcomesOf(y, b, d) == OutcomesOf(x, a, d);
      PlayTwice(x.WishesFor(d), BaseTable(x, a, d), b.rows[d], c.rows[d], first[i].counters, second[i].counters);
    }
    SameOnPlan(x, y, b, c, second);
  }

  lemma SameOnPlan(x: Job, y: Job, b: Cache, c: Cache, second: seq<Stats>)
    requires Refreshed(y, b, c, second) && x.plan == y.plan
    requires forall i :: 0 <= i < |x.plan| ==>
      x.plan[i] in b.rows && x.plan[i] in c.rows && c.rows[x.plan[i]] == b.rows[x.plan[i]]
    ensures c.rows == b.rows
  {
    forall d | d in b.rows ensures c.rows[d] == b.rows[d] {
      if d in x.plan { var i :| 0 <= i < |x.plan| && x.plan[i] == d; }
    }
  }

  // The pages bring no id twice, and the table they meet has no clash.
  ghost predicate Plain(job: Job, before: Cache, d: string) {
    d in before.rows && ClashFree(before.rows[d]) && DistinctIds(job.WishesFor(d))
  }

  ghost predicate StillRefusedIn(job: Job, before: Cache, after: Cache, d: string)
    requires d in before.rows && d in after.rows
  {
    StillRefused(BaseTable(job, before, d), after.rows[d], job.WishesFor(d))
  }

  lemma DatasetSteadyIff(x: Job, y: Job, a: Cache, b: Cache, c: Cache, first: seq<Stats>, second: seq<Stats>, i: nat)
    requires Refreshed(x, a, b, first) && Refreshed(y, b, c, second) && SameWork(x, y) && NothingRebuilt(y, b)
    requires i < |x.plan| && Plain(x, a, x.plan[i])
    ensures
      var d := x.plan[i];
      && d in b.rows && d in c.rows
      && (OutcomesOf(y, b, d) == OutcomesOf(x, a, d) <==> StillRefusedIn(x, a, b, d))
      && (c.rows[d] == b.rows[d] <==> StillRefusedIn(x, a, b, d))
  {
    DatasetTwice(x, y, a, b, c, first, second, i);
    SteadyIff(BaseTable(x, a, x.plan[i]), x.WishesFor(x.plan[i]));
  }

  // Reading the same pages again, at another time, under another run id or policy, changes
  // no row exactly when every row refused the first time still clashes with a table the
  // first refresh left. Then what was inserted is now updated.
  lemma RefreshTwiceIff(x: Job, y: Job, a: Cache, b: Cache, c: Cache, first: seq<Stats>, second: seq<Stats>)
    requires Refreshed(x, a, b, first) && Refreshed(y, b, c, second) && SameWork(x, y) && NothingRebuilt(y, b)
    requires forall d :: d in x.plan ==> Plain(x, a, d)
    ensures forall d :: d in x.plan ==> d in b.rows
    ensures c.rows == b.rows <==> forall d :: d in x.plan ==> StillRefusedIn(x, a, b, d)
    ensures c.rows == b.rows ==> forall i :: 0 <= i < |x.plan| ==> SettledAgain(first[i].counters, second[i].counters)
  {
    forall i | 0 <= i < |x.plan|
      ensures x.plan[i] in b.rows && x.plan[i] in c.rows
      ensures OutcomesOf(y, b, x.plan[i]) == OutcomesOf(x, a, x.plan[i]) <==> StillRefusedIn(x, a, b, x.plan[i])
      ensures c.rows[x.plan[i]] == b.rows[x.plan[i]] <==> StillRefusedIn(x, a, b, x.plan[i])
    {
      DatasetSteadyIff(x, y, a, b, c, first, second, i);
    }
    if forall d :: d in x.plan ==> StillRefusedIn(x, a, b, d) {
      RefreshTwice(x, y, a, b, c, first, second);
    }
  }

  // Once a refresh succeeded, reading the same pages again fails exactly when a policy
  // that fails is shown a drift; so it succeeds where no like name brings in another hash.
  lemma CanRefreshAgainIff(x: Job, y: Job, a: Cache, b: Cache, first: seq<Stats>)
    requires CanRefresh(x, a) && Refreshed(x, a, b, first) && SameWork(x, y)
    ensures CanRefresh(y, b)
      <==> !((y.policy.mode == "strict" || y.policy.onMismatch == "fail") && AnyDrift(b, y.schemas, y.plan))
    ensures y.schemas == x.schemas && Unrivalled(x, b) ==> CanRefresh(y, b)
  {
    if y.schemas == x.schemas && Unrivalled(x, b) { NoDriftAfterRefresh(x, a, b, first); }
  }

  // Row 2 holds `x`; the pages bring `x` under 1 and then `y` under 2. The first reading
  // refuses 1 and updates 2, the second inserts 1.
  lemma RefusedThenInserted(x: Row, y: Row)
    requires x.uniques == map["code" := "x"] && y.uniques == map["code" := "y"]
    ensures
      var a: Table := map["2" := x];
      var wishes := [Stored(Entry("1", x, true), true), Stored(Entry("2", y, true), true)];
      var b := Play(a, wishes).table;
      && ClashFree(a) && DistinctIds(wishes)
      && Play(a, wishes) == Progress(Counters(0, 1, 1, 0), map["2" := y])
      && Play(b, wishes) == Progress(Counters(1, 1, 0, 0), map["1" := x, "2" := y])
  {
    assert "code" in x.uniques && Share(x, x) && !Share(x, y) && !Share(y, x);
    var a: Table := map["2" := x];
    var one, two := Stored(Entry("1", x, true), true), Stored(Entry("2", y, true), true);
    var wishes := [one, two];
    TwoItems(a, one, two);
    assert Clashes(a, one.entry) by { assert "2" in a && Share(a["2"], x); }
    assert Advance(Progress(NO_COUNTS, a), one) == Progress(Counters(0, 0, 1, 0), a);
    assert !Clashes(a, two.entry);
    var b: Table := map["2" := y];
    assert a["2" := y] == b;
    assert Play(a, wishes) == Progress(Counters(0, 1, 1, 0), b);
    TwoItems(b, one, two);
    assert !Clashes(b, one.entry);
    assert !Clashes(b["1" := x], two.entry);
    assert b["1" := x]["2" := y] == map["1" := x, "2" := y];
  }

  lemma TwoItems(t: Table, one: Fate, two: Fate)
    ensures Play(t, [one, two]) == Advance(Advance(Progress(NO_COUNTS, t), one), two)
  {
    var start := Progress(NO_COUNTS, t);
    assert [one, two][..1] == [one] && [one][..0] == [];
    assert PlayFrom(start, []) == start;
    assert PlayFrom(start, [one]) == Advance(start, one);
    assert PlayFrom(start, [one, two]) == Advance(PlayFrom(start, [one]), two);
  }

  // ----- stale rows ----------------------------------------------------------------------------------

  // A row stored before, under whatever schema hash, and not stored again outlives the
  // refresh exactly when the policy rebuilt nothing under it.
  lemma StaleRowSurvivesIff(job: Job, before: Cache, after: Cache, stats: seq<Stats>, i: nat, id: string)
    requires i < |job.plan| && Refreshed(job, before, after, stats)
    requires job.plan[i] in before.rows && id in before.rows[job.plan[i]]
    requires id !in Ids(Entries(OutcomesOf(job, before, job.plan[i])))
    ensures job.plan[i] in after.rows
    ensures id in after.rows[job.plan[i]] <==> !RebuildsTable(before, job.schemas, job.policy, job.plan, job.plan[i])
    ensures id in after.rows[job.plan[i]] ==> after.rows[job.plan[i]][id] == before.rows[job.plan[i]][id]
  {
    RefreshAccounts(job, before, after, stats, i);
  }

  // A drifted dataset under a policy that neither fails nor rebuilds: the pages are empty,
  // the old row stays, and the hash on record is the new one.
  lemma StaleRowUnderNewHash(job: Job, before: Cache, after: Cache, stats: seq<Stats>, id: string)
    requires job.plan == ["d"] && job.source == map["d" := []] && job.schemas.hashes == map["d" := "new"]
    requires job.policy == DriftPolicy("soft", "ignore", "dataset")
    requires "d" in before.rows && id in before.rows["d"] && Drifted(before, job.schemas, "d")
    requires Refreshed(job, before, after, stats)
    ensures "d" in after.rows && id in after.rows["d"]
    ensures "schema_hash" in MetaOf(after, "d") && MetaOf(after, "d")["schema_hash"] == Text("new")
  {
    assert job.plan[0] == "d";
    assert Items([]) == [] && Wishes([], job.IncludesDeleted("d")) == [];
    assert OutcomesOf(job, before, "d") == [] && Entries([]) == [] && Ids([]) == {};
    StaleRowSurvivesIff(job, before, after, stats, 0, id);
    assert DatasetRefreshed(job, before, after, "d", stats[0]);
  }
}
