// Refreshing cached datasets from the target: drift policy, page loop, counters
// and metadata, all inside one transaction.
// Source: connector/usecases/cache_refresh_service.py
module CacheRefresh {
  import opened Basics
  import opened CacheStore
  import opened Digraph
  import Deps = CacheDependencyGraph
  import opened MetaLookup

  // ----- what one fetched item comes to ---------------------------------------------------

  // How the adapter and the identity sync react to an item: no key, or no answer about its
  // deletion, when they raise; `settles` when the sync after the upsert succeeds.
  datatype Raw = Raw(key: Option<string>, deleted: Option<bool>, mapped: Option<Entry>, settles: bool)

  datatype Page = Fetched(number: nat, items: seq<Raw>) | ReadFailed

  datatype Fate = Skipped | Rejected | Stored(entry: Entry, settled: bool)

  // What an item comes to if the table takes its row.
  function WishOf(raw: Raw, includeDeleted: bool): Fate {
    if raw.deleted == None then Rejected
    else if raw.deleted.value && !includeDeleted then Skipped
    else if raw.mapped == None then Rejected
    else Stored(raw.mapped.value, raw.settles)
  }

  // What it comes to with this table.
  function Settle(t: Table, wish: Fate): Fate {
    if wish.Stored? && Refuses(t, wish.entry) then Rejected else wish
  }

  ghost function Wishes(items: seq<Raw>, includeDeleted: bool): (r: seq<Fate>)
    ensures |r| == |items|
  {
    seq(|items|, i requires 0 <= i < |items| => WishOf(items[i], includeDeleted))
  }

  ghost function Items(pages: seq<Page>): seq<Raw> {
    if pages == [] then [] else Items(pages[..|pages| - 1]) + if Last(pages).Fetched? then Last(pages).items else []
  }

  datatype Counters = Counters(inserted: nat, updated: nat, failed: nat, skipped: nat)
  {
    function Handled(): nat { inserted + updated + failed + skipped }
  }

  datatype Stats = Stats(counters: Counters, pages: nat)

  const NO_COUNTS := Counters(0, 0, 0, 0)

  // ----- what the counters and the table should come to ----------------------------------

  ghost function Entries(fates: seq<Fate>): (r: seq<Entry>)
    ensures |r| <= |fates|
  {
    if fates == [] then [] else
      Entries(fates[..|fates| - 1]) + match Last(fates) case Stored(e, _) => [e] case _ => []
  }

  ghost function Skips(fates: seq<Fate>): nat {
    if fates == [] then 0 else Skips(fates[..|fates| - 1]) + if Last(fates).Skipped? then 1 else 0
  }

  ghost function Rejections(fates: seq<Fate>): nat {
    if fates == [] then 0 else Rejections(fates[..|fates| - 1]) + if Last(fates).Rejected? then 1 else 0
  }

  // Items counted as stored and, when the identity sync raises, as failed too.
  ghost function Unsettled(fates: seq<Fate>): nat {
    if fates == [] then 0 else
      Unsettled(fates[..|fates| - 1]) + match Last(fates) case Stored(_, false) => 1 case _ => 0
  }

  ghost function Ids(es: seq<Entry>): set<string> {
    if es == [] then {} else Ids(es[..|es| - 1]) + {Last(es).id}
  }

  // The row stored last under an id.
  ghost function LastRow(es: seq<Entry>, id: string): Row
    requires id in Ids(es)
  {
    if Last(es).id == id then Last(es).row else LastRow(es[..|es| - 1], id)
  }

  // Each id holds the row last stored under it, or its row of before.
  ghost predicate Overlays(before: Table, after: Table, es: seq<Entry>) {
    && after.Keys == before.Keys + Ids(es)
    && forall id {:trigger after[id]} ::
      id in after ==> after[id] == if id in Ids(es) then LastRow(es, id) else before[id]
  }

  ghost predicate Accounts(s: Counters, fates: seq<Fate>, before: Table, after: Table) {
    && Overlays(before, after, Entries(fates))
    && s.inserted + s.updated == |Entries(fates)|
    && s.inserted == |Ids(Entries(fates)) - before.Keys|
    && s.failed == Rejections(fates) + Unsettled(fates)
    && s.skipped == Skips(fates)
  }

  // Storing the same entries a second time changes nothing.
  lemma OverlayTwice(before: Table, after: Table, again: Table, es: seq<Entry>)
    requires Overlays(before, after, es) && Overlays(after, again, es)
    ensures again == after
  {}

  lemma OverlayStep(before: Table, after: Table, es: seq<Entry>, e: Entry)
    requires Overlays(before, after, es)
    ensures Overlays(before, after[e.id := e.row], es + [e])
    ensures Ids(es + [e]) == Ids(es) + {e.id}
  {
    assert (es + [e])[..|es + [e]| - 1] == es;
  }

  // ----- one step of the page loop ----------------------------------------------------------

  datatype Progress = Progress(counters: Counters, table: Table)

  function Apply(p: Progress, fate: Fate): Progress {
    var c := p.counters;
    match fate
    case Skipped => p.(counters := c.(skipped := c.skipped + 1))
    case Rejected => p.(counters := c.(failed := c.failed + 1))
    case Stored(e, settled) =>
      var counted := if e.id in p.table then c.(updated := c.updated + 1) else c.(inserted := c.inserted + 1);
      Progress(if settled then counted else counted.(failed := counted.failed + 1), p.table[e.id := e.row])
  }

  function Advance(p: Progress, wish: Fate): Progress {
    Apply(p, Settle(p.table, wish))
  }

  lemma WishesConcat(a: seq<Raw>, b: seq<Raw>, includeDeleted: bool)
    ensures Wishes(a + b, includeDeleted) == Wishes(a, includeDeleted) + Wishes(b, includeDeleted)
  {}

  lemma WishesSnoc(items: seq<Raw>, raw: Raw, includeDeleted: bool)
    ensures Wishes(items + [raw], includeDeleted) == Wishes(items, includeDeleted) + [WishOf(raw, includeDeleted)]
  {}

  lemma FateCountsSnoc(fates: seq<Fate>, fate: Fate)
    ensures Skips(fates + [fate]) == Skips(fates) + if fate.Skipped? then 1 else 0
    ensures Rejections(fates + [fate]) == Rejections(fates) + if fate.Rejected? then 1 else 0
    ensures Unsettled(fates + [fate]) == Unsettled(fates) + match fate case Stored(_, false) => 1 case _ => 0
    ensures Entries(fates + [fate]) == Entries(fates) + match fate case Stored(e, _) => [e] case _ => []
  {
    assert (fates + [fate])[..|fates + [fate]| - 1] == fates;
  }

  lemma NewIdsSnoc(es: seq<Entry>, e: Entry, before: set<string>)
    requires Ids(es + [e]) == Ids(es) + {e.id}
    ensures |Ids(es + [e]) - before| == |Ids(es) - before| + if e.id in before + Ids(es) then 0 else 1
  {
    var seen := Ids(es) - before;
    if e.id in before + Ids(es) {
      assert Ids(es + [e]) - before == seen;
    } else {
      assert Ids(es + [e]) - before == seen + {e.id};
    }
  }

  lemma ApplyStored(p: Progress, fates: seq<Fate>, e: Entry, settled: bool, before: Table)
    requires Accounts(p.counters, fates, before, p.table)
    ensures
      var next := Apply(p, Stored(e, settled));
      Accounts(next.counters, fates + [Stored(e, settled)], before, next.table)
  {
    FateCountsSnoc(fates, Stored(e, settled));
    OverlayStep(before, p.table, Entries(fates), e);
    NewIdsSnoc(Entries(fates), e, before.Keys);
  }

  lemma ApplyAccounts(p: Progress, fates: seq<Fate>, fate: Fate, before: Table)
    requires Accounts(p.counters, fates, before, p.table)
    ensures Accounts(Apply(p, fate).counters, fates + [fate], before, Apply(p, fate).table)
  {
    match fate
    case Stored(e, settled) => ApplyStored(p, fates, e, settled, before);
    case _ =>
      FateCountsSnoc(fates, fate);
      assert Entries(fates) + [] == Entries(fates);
  }

  ghost function PlayFrom(p: Progress, wishes: seq<Fate>): Progress {
    if wishes == [] then p else Advance(PlayFrom(p, wishes[..|wishes| - 1]), Last(wishes))
  }

  ghost function Play(before: Table, wishes: seq<Fate>): Progress {
    PlayFrom(Progress(NO_COUNTS, before), wishes)
  }

  // What the items come to, each with the table its turn finds.
  ghost function Outcomes(before: Table, wishes: seq<Fate>): (fates: seq<Fate>)
    ensures |fates| == |wishes|
  {
    if wishes == [] then []
    else
      var front := wishes[..|wishes| - 1];
      Outcomes(before, front) + [Settle(Play(before, front).table, Last(wishes))]
  }

  lemma {:induction false} PlayConcat(p: Progress, a: seq<Fate>, b: seq<Fate>)
    ensures PlayFrom(p, a + b) == PlayFrom(PlayFrom(p, a), b)
  {
    if b == [] {
      assert a + b == a;
    } else {
      PlayConcat(p, a, b[..|b| - 1]);
      assert (a + b)[..|a + b| - 1] == a + b[..|b| - 1];
    }
  }

  lemma NoItemsAccounts(before: Table)
    ensures Accounts(NO_COUNTS, [], before, before)
  {
    assert Ids(Entries([])) == {};
    assert Ids(Entries([])) - before.Keys == {};
  }

  // The loop's counters and table are the ones the outcomes call for.
  lemma {:induction false} PlayAccounts(before: Table, wishes: seq<Fate>)
    ensures Accounts(Play(before, wishes).counters, Outcomes(before, wishes), before, Play(before, wishes).table)
  {
    if wishes == [] {
      NoItemsAccounts(before);
    } else {
      var front := wishes[..|wishes| - 1];
      var p := Play(before, front);
      PlayAccounts(before, front);
      ApplyAccounts(p, Outcomes(before, front), Settle(p.table, Last(wishes)), before);
    }
  }

  // No loop breaks a unique index.
  lemma {:induction false} OutcomesPrefix(t: Table, wishes: seq<Fate>, n: nat)
    requires n <= |wishes|
    ensures Outcomes(t, wishes[..n]) == Outcomes(t, wishes)[..n]
    ensures n < |wishes| ==> Outcomes(t, wishes)[n] == Settle(Play(t, wishes[..n]).table, wishes[n])
  {
    if n == |wishes| {
      assert wishes[..n] == wishes;
    } else {
      var front := wishes[..|wishes| - 1];
      if n < |front| {
        OutcomesPrefix(t, front, n);
        assert front[..n] == wishes[..n];
        assert Outcomes(t, wishes)[..n] == Outcomes(t, front)[..n];
      } else {
        assert Outcomes(t, wishes)[..n] == Outcomes(t, front);
      }
    }
  }

  lemma {:induction false} PlayKeepsClashFree(before: Table, wishes: seq<Fate>)
    requires ClashFree(before)
    ensures ClashFree(Play(before, wishes).table)
  {
    if wishes == [] {
    } else {
      var front, wish := wishes[..|wishes| - 1], Last(wishes);
      PlayKeepsClashFree(before, front);
      var t := Play(before, front).table;
      if Settle(t, wish).Stored? { AcceptedKeepsClashFree(t, wish.entry); }
    }
  }

  // Items read, against items counted: exact when every identity sync succeeds.
  lemma {:induction false} Conservation(s: Counters, fates: seq<Fate>, before: Table, after: Table)
    requires Accounts(s, fates, before, after)
    ensures s.Handled() == |fates| + Unsettled(fates)
    ensures |after| == |before| + s.inserted
    ensures s.Handled() == |fates| <==> forall f :: f in fates && f.Stored? ==> f.settled
  {
    FatesPartition(fates);
    UnsettledZero(fates);
    var added := Ids(Entries(fates)) - before.Keys;
    assert after.Keys == before.Keys + added;
    assert |after.Keys| == |after| && |before.Keys| == |before|;
  }

  // One item whose identity sync raises after the upsert: inserted and failed.
  lemma CountedTwice(e: Entry, key: string)
    requires e.complete
    ensures
      var none: Table := map[];
      Play(none, Wishes([Raw(Some(key), Some(false), Some(e), false)], false))
      == Progress(Counters(1, 0, 1, 0), map[e.id := e.row])
  {
    var wishes := Wishes([Raw(Some(key), Some(false), Some(e), false)], false);
    assert wishes == [Stored(e, false)] && wishes[..0] == [];
    var none: Table := map[];
    var start := Progress(NO_COUNTS, none);
    assert PlayFrom(start, wishes[..0]) == start;
    assert PlayFrom(start, wishes) == Advance(start, Stored(e, false));
    assert none[e.id := e.row] == map[e.id := e.row];
  }

  lemma {:induction false} FatesPartition(fates: seq<Fate>)
    ensures |Entries(fates)| + Skips(fates) + Rejections(fates) == |fates|
  {
    if fates == [] {
    } else {
      FatesPartition(fates[..|fates| - 1]);
    }
  }

  lemma {:induction false} UnsettledZero(fates: seq<Fate>)
    ensures Unsettled(fates) == 0 <==> forall f :: f in fates && f.Stored? ==> f.settled
  {
    if fates == [] {
    } else {
      var front := fates[..|fates| - 1];
      UnsettledZero(front);
      assert fates == front + [Last(fates)];
      assert forall f :: f in fates <==> f in front || f == Last(fates);
    }
  }

  // ----- the drift policy ---------------------------------------------------------------------

  datatype DriftPolicy = DriftPolicy(mode: string, onMismatch: string, rebuildScope: string)

  // The expected schema hash of each dataset, and how the database answers for the facts.
  datatype Schemas = Schemas(hashes: map<string, string>, read: Reader)
  {
    function Expected(dataset: string): string {
      if dataset in hashes then hashes[dataset] else ""
    }
  }

  predicate Drifted(c: Cache, schemas: Schemas, dataset: string) {
    ShowsDrift(schemas.read(c, dataset), schemas.Expected(dataset))
  }

  ghost predicate AnyDrift(c: Cache, schemas: Schemas, scope: seq<string>) {
    exists d :: d in scope && Drifted(c, schemas, d)
  }

  ghost predicate RebuildsTable(c: Cache, schemas: Schemas, policy: DriftPolicy, scope: seq<string>, dataset: string) {
    && policy.mode != "strict" && policy.onMismatch == "rebuild"
    && dataset in scope && AnyDrift(c, schemas, scope)
    && (policy.rebuildScope == "all" || Drifted(c, schemas, dataset))
  }

  // A dataset drifts when a hash is expected of it and it shows another one.
  lemma DriftedMeans(c: Cache, schemas: Schemas, d: string)
    ensures Drifted(c, schemas, d) <==>
      && d in schemas.hashes && schemas.hashes[d] != ""
      && "schema_hash" in schemas.read(c, d)
      && schemas.read(c, d)["schema_hash"] !in {Text(""), Text(schemas.hashes[d])}
  {}

  // Of the options a specification allows, soft with rebuild empties a table on drift, and
  // every other pair fails.
  lemma DriftFailsOrRebuilds(c: Cache, schemas: Schemas, policy: DriftPolicy, scope: seq<string>)
    requires policy.mode in {"strict", "soft"} && policy.onMismatch in {"fail", "rebuild"}
    requires AnyDrift(c, schemas, scope)
    ensures (exists d :: RebuildsTable(c, schemas, policy, scope, d))
      <==> !(policy.mode == "strict" || policy.onMismatch == "fail")
    ensures (exists d :: RebuildsTable(c, schemas, policy, scope, d))
      <==> policy.mode == "soft" && policy.onMismatch == "rebuild"
  {
    var d :| d in scope && Drifted(c, schemas, d);
    if policy.mode == "soft" && policy.onMismatch == "rebuild" { assert RebuildsTable(c, schemas, policy, scope, d); }
  }

  // The tables the page loop starts from.
  ghost function AfterDrift(c: Cache, schemas: Schemas, policy: DriftPolicy, scope: seq<string>): Cache {
    c.(rows := map d | d in c.rows :: if RebuildsTable(c, schemas, policy, scope, d) then map[] else c.rows[d])
  }

  // ----- the whole refresh ----------------------------------------------------------------------

  datatype RefreshError =
    | UnsupportedDataset(dataset: string)
    | HashMismatch(datasets: seq<string>)
    | NoTable(dataset: string)
    | TargetRead(dataset: string)
    | EmptyItemKey(dataset: string)

  type Source = map<string, seq<Page>>

  function PagesOf(source: Source, dataset: string): seq<Page> {
    if dataset in source then source[dataset] else []
  }

  ghost predicate HaveKeys(items: seq<Raw>) {
    forall raw :: raw in items ==> raw.key.Some?
  }

  // Every page arrives, and every item on it has a key.
  ghost predicate Readable(pages: seq<Page>) {
    forall p :: p in pages ==> p.Fetched? && HaveKeys(p.items)
  }

  lemma ReadableSnoc(pages: seq<Page>, k: nat)
    requires k < |pages| && Readable(pages[..k])
    ensures pages[k].Fetched? && HaveKeys(pages[k].items) ==> Readable(pages[..k + 1])
    ensures !(pages[k].Fetched? && HaveKeys(pages[k].items)) ==> !Readable(pages)
  {
    assert pages[..k + 1] == pages[..k] + [pages[k]];
    assert pages[k] in pages;
  }

  ghost predicate IsMaxPage(pages: seq<Page>, m: nat) {
    && (forall p :: p in pages && p.Fetched? ==> p.number <= m)
    && (m == 0 || exists p :: p in pages && p.Fetched? && p.number == m)
  }

  datatype RunInfo = RunInfo(now: string, runId: string, apiBase: Option<string>, includeDeleted: Option<bool>)

  datatype Job = Job(schemas: Schemas, policy: DriftPolicy, deletedByDefault: map<string, bool>, plan: seq<string>,
      source: Source, run: RunInfo)
  {
    // The adapter's default stands in for a caller who says nothing about deleted items.
    function IncludesDeleted(dataset: string): bool {
      if run.includeDeleted.Some? then run.includeDeleted.value
      else dataset in deletedByDefault && deletedByDefault[dataset]
    }

    ghost function WishesFor(dataset: string): seq<Fate> {
      Wishes(Items(PagesOf(source, dataset)), IncludesDeleted(dataset))
    }
  }

  ghost function StampedFacts(job: Job, dataset: string, s: Stats, before: map<string, Fact>, size: nat)
    : map<string, Fact>
  {
    (if job.schemas.Expected(dataset) != "" then before["schema_hash" := Text(job.schemas.Expected(dataset))]
      else before)
      ["last_refresh_at" := Text(job.run.now)]["last_refresh_run_id" := Text(job.run.runId)]
      ["last_refresh_pages" := Number(s.pages)]["last_refresh_items" := Number(s.counters.Handled())]
      ["count_total" := Number(size)]
  }

  lemma HashStamped(job: Job, d: string, s: Stats, facts: map<string, Fact>, size: nat)
    ensures job.schemas.Expected(d) != "" ==>
      var stamped := StampedFacts(job, d, s, facts, size);
      "schema_hash" in stamped && stamped["schema_hash"] == Text(job.schemas.Expected(d))
  {
    assert "schema_hash"[0] == 's' && "count_total"[0] == 'c' && "last_refresh_at"[0] == 'l';
    assert "last_refresh_run_id"[0] == 'l' && "last_refresh_pages"[0] == 'l' && "last_refresh_items"[0] == 'l';
  }

  ghost function StampedShared(run: RunInfo, before: map<string, string>): map<string, string> {
    if run.apiBase.Some? && run.apiBase.value != "" then before["source_api_base" := run.apiBase.value] else before
  }

  ghost predicate DatasetRefreshed(job: Job, before: Cache, after: Cache, dataset: string, s: Stats) {
    && dataset in before.rows && dataset in after.rows
    && Progress(s.counters, after.rows[dataset])
      == Play(AfterDrift(before, job.schemas, job.policy, job.plan).rows[dataset], job.WishesFor(dataset))
    && IsMaxPage(PagesOf(job.source, dataset), s.pages)
    && MetaOf(after, dataset) == StampedFacts(job, dataset, s, MetaOf(before, dataset), |after.rows[dataset]|)
  }

  // Everything a successful refresh does to the cache, and nothing else.
  ghost predicate Refreshed(job: Job, before: Cache, after: Cache, stats: seq<Stats>) {
    && |stats| == |job.plan|
    && (forall i :: 0 <= i < |job.plan| ==> DatasetRefreshed(job, before, after, job.plan[i], stats[i]))
    && after.rows.Keys == before.rows.Keys
    && (forall d :: d in before.rows && d !in job.plan ==> after.rows[d] == before.rows[d])
    && (forall d :: d !in job.plan ==> MetaOf(after, d) == MetaOf(before, d))
    && after.shared == StampedShared(job.run, before.shared)
  }

  ghost predicate CanRefresh(job: Job, c: Cache) {
    && !((job.policy.mode == "strict" || job.policy.onMismatch == "fail") && AnyDrift(c, job.schemas, job.plan))
    && (forall d :: d in job.plan ==> d in c.rows && Readable(PagesOf(job.source, d)))
  }

  // The items with these fates took the counters and the dataset's table from one
  // value to the other, and nothing else changed.
  ghost predicate Worked(before: Cache, now: Cache, dataset: string, from: Counters, to: Counters, fates: seq<Fate>) {
    if dataset in before.rows then
      && dataset in now.rows && now == before.(rows := before.rows[dataset := now.rows[dataset]])
      && Progress(to, now.rows[dataset]) == PlayFrom(Progress(from, before.rows[dataset]), fates)
    else now == before
  }

  lemma WorkedOn(a: Cache, b: Cache, c: Cache, dataset: string, from: Counters, mid: Counters, to: Counters,
      f: seq<Fate>, g: seq<Fate>)
    requires Worked(a, b, dataset, from, mid, f) && Worked(b, c, dataset, mid, to, g)
    ensures Worked(a, c, dataset, from, to, f + g)
  {
    if dataset in a.rows {
      PlayConcat(Progress(from, a.rows[dataset]), f, g);
      assert b.rows[dataset := c.rows[dataset]] == a.rows[dataset := c.rows[dataset]];
    }
  }

  lemma PlayOne(p: Progress, wish: Fate)
    ensures PlayFrom(p, [wish]) == Advance(p, wish)
  {}

  lemma WishesOfPage(pages: seq<Page>, k: nat, includeDeleted: bool)
    requires k < |pages| && pages[k].Fetched?
    ensures Wishes(Items(pages[..k + 1]), includeDeleted)
      == Wishes(Items(pages[..k]), includeDeleted) + Wishes(pages[k].items, includeDeleted)
  {
    assert pages[..k + 1][..k] == pages[..k];
    WishesConcat(Items(pages[..k]), pages[k].items, includeDeleted);
  }

  class CacheRefreshUseCase {
    const repository: CacheRepository
    const graph: Deps.DependencyGraph
    const hashes: map<string, string>
    const policy: DriftPolicy
    // Per adapter, whether it takes deleted items by default.
    const adapters: map<string, bool>

    constructor (repository: CacheRepository, graph: Deps.DependencyGraph, hashes: map<string, string>,
        policy: DriftPolicy, adapters: map<string, bool>)
      ensures this.repository == repository && this.graph == graph && this.hashes == hashes
      ensures this.policy == policy && this.adapters == adapters
    {
      this.repository, this.graph, this.hashes, this.policy, this.adapters :=
        repository, graph, hashes, policy, adapters;
    }

    function Checks(): Schemas {
      Schemas(hashes, repository.read)
    }

    function JobFor(plan: seq<string>, source: Source, run: RunInfo): Job {
      Job(Checks(), policy, adapters, plan, source, run)
    }

    method ApplyDriftPolicy(scope: seq<string>) returns (r: Result<(), RefreshError>)
      modifies repository
      ensures r.Ok? <==>
        !((policy.mode == "strict" || policy.onMismatch == "fail")
            && exists d :: d in scope && Drifted(old(repository.state), Checks(), d))
        && forall d :: RebuildsTable(old(repository.state), Checks(), policy, scope, d) ==>
          d in old(repository.state.rows)
      ensures r.Ok? ==> repository.state == AfterDrift(old(repository.state), Checks(), policy, scope)
      ensures r.Ok? ==> forall d :: d in old(repository.state.rows) ==>
        repository.state.rows[d] ==
          if d in scope && policy.mode != "strict" && policy.onMismatch == "rebuild"
            && (exists e :: e in scope && Drifted(old(repository.state), Checks(), e))
            && (policy.rebuildScope == "all" || Drifted(old(repository.state), Checks(), d))
          then map[] else old(repository.state.rows)[d]
      ensures r.Err? && r.error.HashMismatch?
        <==>
          && (policy.mode == "strict" || policy.onMismatch == "fail")
          && exists d :: d in scope && Drifted(old(repository.state), Checks(), d)
      ensures r.Err? ==> r.error.HashMismatch? || r.error.NoTable?
      ensures r.Err? && r.error.HashMismatch? ==>
        forall d :: d in r.error.datasets <==> d in scope && Drifted(old(repository.state), Checks(), d)
    {
      ghost var before := repository.state;
      var mismatched := [];
      for i := 0 to |scope|
        invariant forall d :: d in mismatched <==> d in scope[..i] && Drifted(before, Checks(), d)
      {
        assert scope[..i + 1] == scope[..i] + [scope[i]];
        var facts := repository.GetMeta(scope[i]);
        if ShowsDrift(facts, Checks().Expected(scope[i])) { mismatched := mismatched + [scope[i]]; }
      }
      assert scope[..|scope|] == scope;
      if mismatched == [] {
        assert AfterDrift(before, Checks(), policy, scope).rows == before.rows;
        return Ok(());
      }
      assert mismatched[0] in mismatched;
      if policy.mode == "strict" || policy.onMismatch == "fail" { return Err(HashMismatch(mismatched)); }
      if policy.onMismatch != "rebuild" {
        assert AfterDrift(before, Checks(), policy, scope).rows == before.rows;
        return Ok(());
      }
      var targets := if policy.rebuildScope == "all" then scope else Dedup(mismatched);
      assert forall d :: d in targets <==> RebuildsTable(before, Checks(), policy, scope, d);
      r := RebuildAll(targets);
      assert r.Ok? ==> repository.state.rows == AfterDrift(before, Checks(), policy, scope).rows;
    }

    method RebuildAll(targets: seq<string>) returns (r: Result<(), RefreshError>)
      modifies repository
      ensures r.Ok? <==> forall d :: d in targets ==> d in old(repository.state.rows)
      ensures r.Ok? ==> repository.state == old(repository.state).(rows :=
        map d | d in old(repository.state.rows) :: if d in targets then map[] else old(repository.state.rows)[d])
      ensures r.Err? ==> r.error.NoTable?
    {
      ghost var before := repository.state;
      for i := 0 to |targets|
        invariant forall d :: d in targets[..i] ==> d in before.rows
        invariant repository.state == before.(rows := repository.state.rows)
        invariant repository.state.rows == map d | d in before.rows ::
          if d in targets[..i] then map[] else before.rows[d]
      {
        assert targets[..i + 1] == targets[..i] + [targets[i]];
        var ok := repository.Rebuild(targets[i]);
        if !ok { return Err(NoTable(targets[i])); }
      }
      assert targets[..|targets|] == targets;
      return Ok(());
    }

    // One pass of the innermost loop; None when the item has no key.
    method ProcessItem(dataset: string, raw: Raw, includeDeleted: bool, c: Counters) returns (r: Option<Counters>)
      modifies repository
      ensures r == None <==> raw.key == None
      ensures r.Some? ==> Worked(old(repository.state), repository.state, dataset, c, r.value,
        [WishOf(raw, includeDeleted)])
    {
      if raw.key == None { return None; }
      var failure := c.(failed := c.failed + 1);
      PlayOne(Progress(c, if dataset in repository.state.rows then repository.state.rows[dataset] else map[]),
        WishOf(raw, includeDeleted));
      if raw.deleted == None { return Some(failure); }
      if raw.deleted.value && !includeDeleted { return Some(c.(skipped := c.skipped + 1)); }
      if raw.mapped == None { return Some(failure); }
      var result := repository.Upsert(dataset, raw.mapped.value);
      if result == None { return Some(failure); }
      var counted := if result.value == INSERTED then c.(inserted := c.inserted + 1) else c.(updated := c.updated + 1);
      if !raw.settles { return Some(counted.(failed := counted.failed + 1)); }
      return Some(counted);
    }

    method LoadPage(dataset: string, items: seq<Raw>, includeDeleted: bool, before: Counters)
      returns (r: Option<Counters>)
      modifies repository
      ensures r.Some? <==> HaveKeys(items)
      ensures r.Some? ==> Worked(old(repository.state), repository.state, dataset, before, r.value,
        Wishes(items, includeDeleted))
    {
      ghost var start := repository.state;
      var c := before;
      for j := 0 to |items|
        invariant HaveKeys(items[..j])
        invariant Worked(start, repository.state, dataset, before, c, Wishes(items[..j], includeDeleted))
      {
        ghost var earlier := repository.state;
        assert items[..j + 1] == items[..j] + [items[j]];
        WishesSnoc(items[..j], items[j], includeDeleted);
        var step := ProcessItem(dataset, items[j], includeDeleted, c);
        if step == None { return None; }
        WorkedOn(start, earlier, repository.state, dataset, before, c, step.value,
          Wishes(items[..j], includeDeleted), [WishOf(items[j], includeDeleted)]);
        c := step.value;
      }
      assert items[..|items|] == items;
      return Some(c);
    }

    method LoadDataset(dataset: string, pages: seq<Page>, includeDeleted: bool) returns (r: Result<Stats, RefreshError>)
      modifies repository
      ensures r.Ok? <==> Readable(pages)
      ensures r.Err? ==> r.error.TargetRead? || r.error.EmptyItemKey?
      ensures r.Ok? ==> IsMaxPage(pages, r.value.pages)
      ensures r.Ok? ==>
        Worked(old(repository.state), repository.state, dataset, NO_COUNTS, r.value.counters,
          Wishes(Items(pages), includeDeleted))
    {
      ghost var start := repository.state;
      var counters := NO_COUNTS;
      var page: nat := 0;
      for k := 0 to |pages|
        invariant Readable(pages[..k]) && IsMaxPage(pages[..k], page)
        invariant Worked(start, repository.state, dataset, NO_COUNTS, counters,
          Wishes(Items(pages[..k]), includeDeleted))
      {
        ghost var earlier := repository.state;
        ReadableSnoc(pages, k);
        if pages[k].ReadFailed? { return Err(TargetRead(dataset)); }
        WishesOfPage(pages, k, includeDeleted);
        MaxPageStep(pages, k, page);
        page := if page >= pages[k].number then page else pages[k].number;
        var step := LoadPage(dataset, pages[k].items, includeDeleted, counters);
        if step == None { return Err(EmptyItemKey(dataset)); }
        WorkedOn(start, earlier, repository.state, dataset, NO_COUNTS, counters, step.value,
          Wishes(Items(pages[..k]), includeDeleted), Wishes(pages[k].items, includeDeleted));
        counters := step.value;
      }
      assert pages[..|pages|] == pages;
      return Ok(Stats(counters, page));
    }

    method StampOne(job: Job, dataset: string, s: Stats) returns (ok: bool)
      modifies repository
      ensures ok <==> dataset in old(repository.state.rows)
      ensures ok ==> repository.state == WithFacts(old(repository.state), dataset,
        StampedFacts(job, dataset, s, MetaOf(old(repository.state), dataset), |old(repository.state.rows[dataset])|))
    {
      var count := repository.Count(dataset);
      if count == None { return false; }
      ghost var before := repository.state;
      ghost var facts := MetaOf(before, dataset);
      if job.schemas.Expected(dataset) != "" {
        repository.SetMeta(dataset, "schema_hash", Text(job.schemas.Expected(dataset)));
        facts := facts["schema_hash" := Text(job.schemas.Expected(dataset))];
        FactsAgain(before, dataset, facts, facts["last_refresh_at" := Text(job.run.now)]);
      }
      repository.SetMeta(dataset, "last_refresh_at", Text(job.run.now));
      facts := facts["last_refresh_at" := Text(job.run.now)];
      FactsAgain(before, dataset, facts, facts["last_refresh_run_id" := Text(job.run.runId)]);
      repository.SetMeta(dataset, "last_refresh_run_id", Text(job.run.runId));
      facts := facts["last_refresh_run_id" := Text(job.run.runId)];
      FactsAgain(before, dataset, facts, facts["last_refresh_pages" := Number(s.pages)]);
      repository.SetMeta(dataset, "last_refresh_pages", Number(s.pages));
      facts := facts["last_refresh_pages" := Number(s.pages)];
      FactsAgain(before, dataset, facts, facts["last_refresh_items" := Number(s.counters.Handled())]);
      repository.SetMeta(dataset, "last_refresh_items", Number(s.counters.Handled()));
      facts := facts["last_refresh_items" := Number(s.counters.Handled())];
      FactsAgain(before, dataset, facts, facts["count_total" := Number(count.value)]);
      repository.SetMeta(dataset, "count_total", Number(count.value));
      return true;
    }

    // Counts and facts, dataset by dataset, once every page has been read.
    method Stamp(job: Job, stats: seq<Stats>) returns (r: Result<(), RefreshError>)
      requires |stats| == |job.plan| && NoDup(job.plan)
      modifies repository
      ensures r.Ok? <==> forall d :: d in job.plan ==> d in old(repository.state.rows)
      ensures r.Err? ==> r.error.NoTable?
      ensures r.Ok? ==> StampedAll(job, stats, |job.plan|, old(repository.state), repository.state)
    {
      ghost var before := repository.state;
      for i := 0 to |job.plan|
        invariant forall k :: 0 <= k < i ==> job.plan[k] in before.rows
        invariant StampedAll(job, stats, i, before, repository.state)
      {
        ghost var earlier := repository.state;
        var stamped := StampOne(job, job.plan[i], stats[i]);
        if !stamped { return Err(NoTable(job.plan[i])); }
        StampStep(job, stats, i, before, earlier, repository.state);
      }
      return Ok(());
    }

    method RefreshInTransaction(job: Job) returns (r: Result<seq<Stats>, RefreshError>)
      requires job.schemas == Checks() && job.policy == policy && NoDup(job.plan)
      modifies repository
      ensures r.Ok? <==> CanRefresh(job, old(repository.state))
      ensures r.Ok? ==> Refreshed(job, old(repository.state), repository.state, r.value)
      ensures r.Err? && r.error.HashMismatch?
        <==>
          && (policy.mode == "strict" || policy.onMismatch == "fail")
          && exists d :: d in job.plan && Drifted(old(repository.state), Checks(), d)
      ensures r.Err? && r.error.HashMismatch? ==>
        forall d :: d in r.error.datasets <==> d in job.plan && Drifted(old(repository.state), Checks(), d)
      ensures r.Err? ==> !r.error.UnsupportedDataset?
    {
      ghost var before := repository.state;
      var drift := ApplyDriftPolicy(job.plan);
      if drift.Err? { return Err(drift.error); }
      ghost var base := repository.state;
      var stats := [];
      for i := 0 to |job.plan|
        invariant |stats| == i
        invariant forall k :: 0 <= k < i ==> Readable(PagesOf(job.source, job.plan[k]))
        invariant LoadedAll(job, stats, base, repository.state)
      {
        var d := job.plan[i];
        ghost var earlier := repository.state;
        var loaded := LoadDataset(d, PagesOf(job.source, d), job.IncludesDeleted(d));
        if loaded.Err? { return Err(loaded.error); }
        LoadedAllStep(job, stats, base, earlier, repository.state, loaded.value);
        stats := stats + [loaded.value];
      }
      ghost var filled := repository.state;
      var stamped := Stamp(job, stats);
      if stamped.Err? { return Err(stamped.error); }
      if job.run.apiBase.Some? && job.run.apiBase.value != "" {
        repository.state := repository.state.(shared :=
          repository.state.shared["source_api_base" := job.run.apiBase.value]);
      }
      RefreshedByStages(job, before, filled, repository.state, stats);
      return Ok(stats);
    }

    // The datasets a call asks for.
    ghost predicate InScope(dataset: Option<string>, includeDependencies: bool, d: string) {
      match dataset
      case None => d in graph.datasets
      case Some(x) => x in graph.datasets && if includeDependencies then Reaches(graph.dependencies, x, d) else d == x
    }

    // Whether the dataset can be refreshed from this cache and this source.
    ghost predicate Ready(c: Cache, source: Source, d: string) {
      && d in adapters && d in c.rows && Readable(PagesOf(source, d))
      && !((policy.mode == "strict" || policy.onMismatch == "fail") && Drifted(c, Checks(), d))
    }

    method MissingAdapter(plan: seq<string>) returns (missing: Option<string>)
      ensures missing == None <==> forall d :: d in plan ==> d in adapters
      ensures missing.Some? ==> missing.value in plan && missing.value !in adapters
    {
      for i := 0 to |plan|
        invariant forall d :: d in plan[..i] ==> d in adapters
      {
        assert plan[..i + 1] == plan[..i] + [plan[i]];
        if plan[i] !in adapters { return Some(plan[i]); }
      }
      assert plan[..|plan|] == plan;
      return None;
    }

    lemma ReadyIff(dataset: Option<string>, includeDependencies: bool, plan: seq<string>, c: Cache, source: Source,
        run: RunInfo)
      requires forall d :: d in plan <==> InScope(dataset, includeDependencies, d)
      requires forall d :: d in plan ==> d in adapters
      ensures CanRefresh(JobFor(plan, source, run), c) <==>
        forall d :: InScope(dataset, includeDependencies, d) ==> Ready(c, source, d)
    {}

    // A refresh goes through exactly when every dataset in scope is ready; otherwise
    // the cache is as it was.
    method Refresh(dataset: Option<string>, includeDependencies: bool, source: Source, run: RunInfo)
      returns (r: Result<Outcome, RefreshError>)
      requires graph.Valid()
      modifies repository
      ensures r.Ok? <==>
        (dataset.Some? ==> dataset.value in graph.datasets)
        && forall d :: InScope(dataset, includeDependencies, d) ==> Ready(old(repository.state), source, d)
      ensures r.Err? ==> repository.state == old(repository.state)
      ensures r.Err? && r.error.UnsupportedDataset? <==>
        (dataset.Some? && dataset.value !in graph.datasets)
        || exists d :: InScope(dataset, includeDependencies, d) && d !in adapters
      ensures r.Err? && r.error.HashMismatch? <==>
        && (dataset.Some? ==> dataset.value in graph.datasets)
        && (forall d :: InScope(dataset, includeDependencies, d) ==> d in adapters)
        && (policy.mode == "strict" || policy.onMismatch == "fail")
        && exists d :: InScope(dataset, includeDependencies, d) && Drifted(old(repository.state), Checks(), d)
      ensures r.Ok? ==>
        && NoDup(r.value.plan) && (forall d :: d in r.value.plan <==> InScope(dataset, includeDependencies, d))
        && (dataset == None || includeDependencies ==> SuccessorsFirst(graph.dependencies, r.value.plan))
        && Refreshed(JobFor(r.value.plan, source, run), old(repository.state), repository.state, r.value.stats)
        && IsTotal(r.value.totals, r.value.stats)
    {
      ghost var before := repository.state;
      var plan := graph.RefreshOrder(dataset, includeDependencies);
      if plan.Err? { return Err(UnsupportedDataset(dataset.value)); }
      assert forall d :: d in plan.value <==> InScope(dataset, includeDependencies, d);
      var missing := MissingAdapter(plan.value);
      if missing.Some? { return Err(UnsupportedDataset(missing.value)); }
      ReadyIff(dataset, includeDependencies, plan.value, before, source, run);
      var saved := repository.state;
      var result := RefreshInTransaction(JobFor(plan.value, source, run));
      if result.Err? {
        repository.state := saved;
        return Err(result.error);
      }
      var totals := SumStats(result.value);
      return Ok(Outcome(plan.value, result.value, totals));
    }
  }

  datatype Outcome = Outcome(plan: seq<string>, stats: seq<Stats>, totals: Counters)

  // The first datasets of the plan have been loaded, and only their tables have changed.
  ghost predicate LoadedAll(job: Job, stats: seq<Stats>, base: Cache, now: Cache) {
    && |stats| <= |job.plan|
    && now == base.(rows := now.rows) && now.rows.Keys == base.rows.Keys
    && (forall d :: d in base.rows && d !in job.plan[..|stats|] ==> now.rows[d] == base.rows[d])
    && (forall k :: 0 <= k < |stats| ==> IsMaxPage(PagesOf(job.source, job.plan[k]), stats[k].pages))
    && (forall k :: 0 <= k < |stats| && job.plan[k] in base.rows ==>
      Progress(stats[k].counters, now.rows[job.plan[k]]) == Play(base.rows[job.plan[k]], job.WishesFor(job.plan[k])))
  }

  lemma LoadedAllStep(job: Job, stats: seq<Stats>, base: Cache, earlier: Cache, now: Cache, s: Stats)
    requires |stats| < |job.plan| && NoDup(job.plan) && LoadedAll(job, stats, base, earlier)
    requires
      var d := job.plan[|stats|];
      && IsMaxPage(PagesOf(job.source, d), s.pages)
      && Worked(earlier, now, d, NO_COUNTS, s.counters, job.WishesFor(d))
    ensures LoadedAll(job, stats + [s], base, now)
  {
    var d := job.plan[|stats|];
    assert job.plan[..|stats| + 1] == job.plan[..|stats|] + [d];
    forall k | 0 <= k < |stats + [s]| && job.plan[k] in base.rows
      ensures Progress((stats + [s])[k].counters, now.rows[job.plan[k]])
        == Play(base.rows[job.plan[k]], job.WishesFor(job.plan[k]))
    {
      if k < |stats| { assert job.plan[k] != d; }
    }
  }

  ghost predicate StampedAll(job: Job, stats: seq<Stats>, done: nat, before: Cache, now: Cache)
    requires |stats| == |job.plan| && done <= |job.plan|
  {
    && now == before.(meta := now.meta)
    && (forall d :: d !in job.plan[..done] ==> MetaOf(now, d) == MetaOf(before, d))
    && (forall k :: 0 <= k < done && job.plan[k] in before.rows ==>
      MetaOf(now, job.plan[k]) == StampedFacts(job, job.plan[k], stats[k], MetaOf(before, job.plan[k]),
        |before.rows[job.plan[k]]|))
  }

  lemma StampStep(job: Job, stats: seq<Stats>, i: nat, before: Cache, earlier: Cache, now: Cache)
    requires |stats| == |job.plan| && i < |job.plan| && NoDup(job.plan) && job.plan[i] in before.rows
    requires StampedAll(job, stats, i, before, earlier)
    requires now == WithFacts(earlier, job.plan[i],
      StampedFacts(job, job.plan[i], stats[i], MetaOf(earlier, job.plan[i]), |before.rows[job.plan[i]]|))
    ensures StampedAll(job, stats, i + 1, before, now)
  {
    assert job.plan[..i + 1] == job.plan[..i] + [job.plan[i]];
    assert job.plan[i] !in job.plan[..i];
    forall d | d != job.plan[i] ensures MetaOf(now, d) == MetaOf(earlier, d) {}
    forall k | 0 <= k < i ensures job.plan[k] != job.plan[i] {}
  }

  lemma DatasetByStages(job: Job, before: Cache, filled: Cache, after: Cache, stats: seq<Stats>, i: nat)
    requires i < |stats| == |job.plan| && job.plan[i] in before.rows
    requires LoadedAll(job, stats, AfterDrift(before, job.schemas, job.policy, job.plan), filled)
    requires StampedAll(job, stats, |job.plan|, filled, after.(shared := filled.shared))
    ensures DatasetRefreshed(job, before, after, job.plan[i], stats[i])
  {
    var d := job.plan[i];
    assert d in job.plan;
    assert MetaOf(after, d) == MetaOf(after.(shared := filled.shared), d);
  }

  lemma OutsideByStages(job: Job, before: Cache, filled: Cache, after: Cache, stats: seq<Stats>, d: string)
    requires |stats| == |job.plan| && d !in job.plan
    requires LoadedAll(job, stats, AfterDrift(before, job.schemas, job.policy, job.plan), filled)
    requires StampedAll(job, stats, |job.plan|, filled, after.(shared := filled.shared))
    ensures MetaOf(after, d) == MetaOf(before, d)
    ensures d in before.rows ==> d in after.rows && after.rows[d] == before.rows[d]
  {
    assert job.plan[..|job.plan|] == job.plan;
    assert MetaOf(after, d) == MetaOf(after.(shared := filled.shared), d);
  }

  lemma RefreshedByStages(job: Job, before: Cache, filled: Cache, after: Cache, stats: seq<Stats>)
    requires |stats| == |job.plan| && forall d :: d in job.plan ==> d in before.rows
    requires LoadedAll(job, stats, AfterDrift(before, job.schemas, job.policy, job.plan), filled)
    requires StampedAll(job, stats, |job.plan|, filled, after.(shared := filled.shared))
    requires after.shared == StampedShared(job.run, before.shared)
    ensures Refreshed(job, before, after, stats)
  {
    forall i | 0 <= i < |job.plan| ensures DatasetRefreshed(job, before, after, job.plan[i], stats[i]) {
      DatasetByStages(job, before, filled, after, stats, i);
    }
    forall d | d !in job.plan
      ensures MetaOf(after, d) == MetaOf(before, d)
      ensures d in before.rows ==> d in after.rows && after.rows[d] == before.rows[d]
    {
      OutsideByStages(job, before, filled, after, stats, d);
    }
  }

  lemma MaxPageStep(pages: seq<Page>, k: nat, m: nat)
    requires k < |pages| && IsMaxPage(pages[..k], m) && pages[k].Fetched?
    ensures IsMaxPage(pages[..k + 1], if m >= pages[k].number then m else pages[k].number)
  {
    assert pages[..k + 1] == pages[..k] + [pages[k]];
    if m >= pages[k].number && m != 0 {
      var p :| p in pages[..k] && p.Fetched? && p.number == m;
      assert p in pages[..k + 1];
    }
    assert pages[k] in pages[..k + 1];
  }

  // ----- totals --------------------------------------------------------------------------------

  ghost function Sum(ns: seq<nat>): nat {
    if ns == [] then 0 else Sum(ns[..|ns| - 1]) + Last(ns)
  }

  ghost function Inserted(stats: seq<Stats>): seq<nat> {
    seq(|stats|, i requires 0 <= i < |stats| => stats[i].counters.inserted)
  }

  ghost function Updated(stats: seq<Stats>): seq<nat> {
    seq(|stats|, i requires 0 <= i < |stats| => stats[i].counters.updated)
  }

  ghost function Failed(stats: seq<Stats>): seq<nat> {
    seq(|stats|, i requires 0 <= i < |stats| => stats[i].counters.failed)
  }

  ghost function SkippedItems(stats: seq<Stats>): seq<nat> {
    seq(|stats|, i requires 0 <= i < |stats| => stats[i].counters.skipped)
  }

  ghost predicate IsTotal(t: Counters, stats: seq<Stats>) {
    && t.inserted == Sum(Inserted(stats)) && t.updated == Sum(Updated(stats))
    && t.failed == Sum(Failed(stats)) && t.skipped == Sum(SkippedItems(stats))
  }

  lemma TotalSnoc(t: Counters, stats: seq<Stats>, k: nat)
    requires k < |stats| && IsTotal(t, stats[..k])
    ensures
      var c := stats[k].counters;
      IsTotal(Counters(t.inserted + c.inserted, t.updated + c.updated, t.failed + c.failed, t.skipped + c.skipped),
        stats[..k + 1])
  {
    assert Inserted(stats[..k + 1])[..k] == Inserted(stats[..k]);
    assert Updated(stats[..k + 1])[..k] == Updated(stats[..k]);
    assert Failed(stats[..k + 1])[..k] == Failed(stats[..k]);
    assert SkippedItems(stats[..k + 1])[..k] == SkippedItems(stats[..k]);
  }

  method SumStats(stats: seq<Stats>) returns (totals: Counters)
    ensures IsTotal(totals, stats)
  {
    totals := NO_COUNTS;
    for k := 0 to |stats|
      invariant IsTotal(totals, stats[..k])
    {
      TotalSnoc(totals, stats, k);
      var c := stats[k].counters;
      totals := Counters(
        totals.inserted + c.inserted, totals.updated + c.updated, totals.failed + c.failed, totals.skipped + c.skipped);
    }
    assert stats[..|stats|] == stats;
  }

  // ----- what a refresh means --------------------------------------------------------------------

  // Which rows a table ends up with, what the counters say about them, and how many
  // items were read.
  ghost predicate Accounted(c: Counters, fates: seq<Fate>, before: Table, after: Table) {
    && Accounts(c, fates, before, after)
    && |after| == |before| + c.inserted
    && c.Handled() == |fates| + Unsettled(fates)
    && (c.Handled() == |fates| <==> forall f :: f in fates && f.Stored? ==> f.settled)
  }

  lemma PlayAccounted(c: Counters, wishes: seq<Fate>, before: Table, after: Table)
    requires Progress(c, after) == Play(before, wishes)
    ensures Accounted(c, Outcomes(before, wishes), before, after)
  {
    PlayAccounts(before, wishes);
    Conservation(c, Outcomes(before, wishes), before, after);
  }

  ghost function BaseTable(job: Job, before: Cache, dataset: string): Table
    requires dataset in before.rows
  {
    AfterDrift(before, job.schemas, job.policy, job.plan).rows[dataset]
  }

  // What the items of a dataset came to.
  ghost function OutcomesOf(job: Job, before: Cache, dataset: string): seq<Fate>
    requires dataset in before.rows
  {
    Outcomes(BaseTable(job, before, dataset), job.WishesFor(dataset))
  }

  lemma RefreshAccounts(job: Job, before: Cache, after: Cache, stats: seq<Stats>, i: nat)
    requires i < |job.plan| && Refreshed(job, before, after, stats)
    ensures job.plan[i] in before.rows && job.plan[i] in after.rows
    ensures Accounted(stats[i].counters, OutcomesOf(job, before, job.plan[i]), BaseTable(job, before, job.plan[i]),
      after.rows[job.plan[i]])
    ensures |OutcomesOf(job, before, job.plan[i])| == |Items(PagesOf(job.source, job.plan[i]))|
  {
    var d := job.plan[i];
    assert DatasetRefreshed(job, before, after, d, stats[i]);
    PlayAccounted(stats[i].counters, job.WishesFor(d), BaseTable(job, before, d), after.rows[d]);
  }

  // A refresh leaves no table with a clash that had none.
  lemma RefreshKeepsClashFree(job: Job, before: Cache, after: Cache, stats: seq<Stats>, d: string)
    requires Refreshed(job, before, after, stats) && d in before.rows && ClashFree(before.rows[d])
    ensures d in after.rows && ClashFree(after.rows[d])
  {
    if d in job.plan {
      var i :| 0 <= i < |job.plan| && job.plan[i] == d;
      assert DatasetRefreshed(job, before, after, job.plan[i], stats[i]);
      PlayKeepsClashFree(BaseTable(job, before, d), job.WishesFor(d));
    }
  }

  lemma {:induction false} SumOfSums(a: seq<nat>, b: seq<nat>, c: seq<nat>)
    requires |a| == |b| == |c| && forall i :: 0 <= i < |a| ==> c[i] == a[i] + b[i]
    ensures Sum(c) == Sum(a) + Sum(b)
  {
    if a == [] {
    } else {
      SumOfSums(a[..|a| - 1], b[..|b| - 1], c[..|c| - 1]);
    }
  }

  ghost function Sizes(plan: seq<string>, c: Cache): seq<nat>
    requires forall d :: d in plan ==> d in c.rows
  {
    seq(|plan|, i requires 0 <= i < |plan| => |c.rows[plan[i]]|)
  }

  lemma InsertedGrowth(job: Job, before: Cache, after: Cache, stats: seq<Stats>, i: nat)
    requires i < |job.plan| && Refreshed(job, before, after, stats)
    ensures job.plan[i] in before.rows && job.plan[i] in after.rows
    ensures |after.rows[job.plan[i]]| == |BaseTable(job, before, job.plan[i])| + stats[i].counters.inserted
  {
    RefreshAccounts(job, before, after, stats, i);
  }

  // The reported total of insertions is the growth of all the refreshed tables together.
  lemma TotalGrowth(job: Job, before: Cache, after: Cache, stats: seq<Stats>, totals: Counters)
    requires Refreshed(job, before, after, stats) && IsTotal(totals, stats)
    ensures forall d :: d in job.plan ==> d in before.rows && d in after.rows
    ensures Sum(Sizes(job.plan, after))
      == Sum(Sizes(job.plan, AfterDrift(before, job.schemas, job.policy, job.plan))) + totals.inserted
  {
    var base := AfterDrift(before, job.schemas, job.policy, job.plan);
    forall i | 0 <= i < |job.plan|
      ensures job.plan[i] in before.rows && job.plan[i] in after.rows
      ensures |after.rows[job.plan[i]]| == |base.rows[job.plan[i]]| + Inserted(stats)[i]
    {
      InsertedGrowth(job, before, after, stats, i);
    }
    SumOfSums(Sizes(job.plan, base), Inserted(stats), Sizes(job.plan, after));
  }
}
