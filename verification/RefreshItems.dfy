// What the counters, the rows and the facts of a refresh say about the items read.
// Source: connector/usecases/cache_refresh_service.py
module RefreshItems {
  import opened Basics
  import opened CacheRefresh
  import opened CacheStore

  // ----- items ------------------------------------------------------------------------------

  // Deleted items that nobody asked for are skipped. The rest is stored under the mapped
  // entry, unless the adapter raised or the table of the moment refuses the row.
  lemma FateOfItem(before: Table, items: seq<Raw>, includeDeleted: bool, i: nat)
    requires i < |items|
    ensures
      var raw, fate := items[i], Outcomes(before, Wishes(items, includeDeleted))[i];
      var t := Play(before, Wishes(items, includeDeleted)[..i]).table;
      && (fate.Skipped? <==> raw.deleted.Some? && raw.deleted.value && !includeDeleted)
      && (fate.Stored? <==>
            && raw.deleted.Some? && (raw.deleted.value ==> includeDeleted)
            && raw.mapped.Some? && !Refuses(t, raw.mapped.value))
      && (fate.Stored? ==> fate == Stored(raw.mapped.value, raw.settles))
  {
    OutcomesPrefix(before, Wishes(items, includeDeleted), i);
    assert Wishes(items, includeDeleted)[i] == WishOf(items[i], includeDeleted);
  }

  // ----- counters ---------------------------------------------------------------------------

  lemma {:induction false} CountsAreSizes(fates: seq<Fate>)
    ensures Skips(fates) == |Places(fates, (f: Fate) => f.Skipped?)|
    ensures Rejections(fates) == |Places(fates, (f: Fate) => f.Rejected?)|
    ensures Unsettled(fates) == |Places(fates, (f: Fate) => f.Stored? && !f.settled)|
    ensures |Entries(fates)| == |Places(fates, (f: Fate) => f.Stored?)|
  {
    if fates == [] {
    } else {
      var front, last := fates[..|fates| - 1], Last(fates);
      assert fates == front + [last];
      CountsAreSizes(front);
      PlacesSnoc(front, last, (f: Fate) => f.Skipped?);
      PlacesSnoc(front, last, (f: Fate) => f.Rejected?);
      PlacesSnoc(front, last, (f: Fate) => f.Stored? && !f.settled);
      PlacesSnoc(front, last, (f: Fate) => f.Stored?);
    }
  }

  // The adapter's default stands in for a caller who says nothing.
  lemma DeletedAreAskedFor(job: Job, d: string)
    ensures job.run.includeDeleted.Some? ==> job.IncludesDeleted(d) == job.run.includeDeleted.value
    ensures job.run.includeDeleted.None? ==>
      (job.IncludesDeleted(d) <==> (d, true) in job.deletedByDefault.Items)
  {}

  // Skipped are the deleted items nobody asked for.
  lemma SkippedItemsAre(before: Table, items: seq<Raw>, includeDeleted: bool)
    ensures Play(before, Wishes(items, includeDeleted)).counters.skipped
      == |Places(items, (raw: Raw) => raw.deleted.Some? && raw.deleted.value && !includeDeleted)|
  {
    var wishes := Wishes(items, includeDeleted);
    var fates := Outcomes(before, wishes);
    PlayAccounts(before, wishes);
    CountsAreSizes(fates);
    forall i | 0 <= i < |items|
      ensures fates[i].Skipped? <==> items[i].deleted.Some? && items[i].deleted.value && !includeDeleted
    {
      FateOfItem(before, items, includeDeleted, i);
    }
    assert Places(fates, (f: Fate) => f.Skipped?)
      == Places(items, (raw: Raw) => raw.deleted.Some? && raw.deleted.value && !includeDeleted);
  }

  // What a loop's counters say: skipped as above, failed what was rejected and what was
  // stored without its identity sync, inserted or updated what was stored.
  lemma CountersOfItems(c: Counters, before: Table, after: Table, items: seq<Raw>, includeDeleted: bool)
    requires Progress(c, after) == Play(before, Wishes(items, includeDeleted))
    ensures
      var fates := Outcomes(before, Wishes(items, includeDeleted));
      && c.skipped == |Places(items, (raw: Raw) => raw.deleted.Some? && raw.deleted.value && !includeDeleted)|
      && c.failed == |Places(fates, (f: Fate) => f.Rejected?)| + |Places(fates, (f: Fate) => f.Stored? && !f.settled)|
      && c.inserted + c.updated == |Places(fates, (f: Fate) => f.Stored?)|
  {
    PlayAccounts(before, Wishes(items, includeDeleted));
    SkippedItemsAre(before, items, includeDeleted);
    CountsAreSizes(Outcomes(before, Wishes(items, includeDeleted)));
  }

  // Each dataset of a refresh is such a loop, from its table after the drift policy.
  lemma DatasetIsLoop(job: Job, before: Cache, after: Cache, stats: seq<Stats>, i: nat)
    requires i < |job.plan| && Refreshed(job, before, after, stats)
    ensures
      var d := job.plan[i];
      && d in before.rows && d in after.rows
      && Progress(stats[i].counters, after.rows[d])
        == Play(BaseTable(job, before, d), Wishes(Items(PagesOf(job.source, d)), job.IncludesDeleted(d)))
  {
    assert DatasetRefreshed(job, before, after, job.plan[i], stats[i]);
  }

  // ----- facts --------------------------------------------------------------------------------

  // Each fact of a refresh under its key.
  ghost predicate Recorded(job: Job, d: string, s: Stats, size: nat, facts: map<string, Fact>) {
    && ("last_refresh_at", Text(job.run.now)) in facts.Items
    && ("last_refresh_run_id", Text(job.run.runId)) in facts.Items
    && ("last_refresh_pages", Number(s.pages)) in facts.Items
    && ("last_refresh_items", Number(s.counters.inserted + s.counters.updated + s.counters.failed + s.counters.skipped))
      in facts.Items
    && ("count_total", Number(size)) in facts.Items
    && (d in job.schemas.hashes && job.schemas.hashes[d] != "" ==>
          ("schema_hash", Text(job.schemas.hashes[d])) in facts.Items)
  }

  lemma FactsOf(job: Job, d: string, s: Stats, facts: map<string, Fact>, size: nat)
    ensures Recorded(job, d, s, size, StampedFacts(job, d, s, facts, size))
  {
    HashStamped(job, d, s, facts, size);
    assert "last_refresh_at"[13] == 'a' && "last_refresh_run_id"[13] == 'r';
    assert "last_refresh_pages"[13] == 'p' && "last_refresh_items"[13] == 'i' && "count_total"[0] == 'c';
  }

  lemma FactsAfterRefresh(job: Job, before: Cache, after: Cache, stats: seq<Stats>, i: nat)
    requires i < |job.plan| && Refreshed(job, before, after, stats)
    ensures
      var d := job.plan[i];
      && d in after.rows && Recorded(job, d, stats[i], |after.rows[d]|, MetaOf(after, d))
      && IsMaxPage(PagesOf(job.source, d), stats[i].pages)
  {
    var d := job.plan[i];
    assert DatasetRefreshed(job, before, after, d, stats[i]);
    FactsOf(job, d, stats[i], MetaOf(before, d), |after.rows[d]|);
  }

  lemma OtherFactsStay(job: Job, before: Cache, after: Cache, stats: seq<Stats>, i: nat, key: string)
    requires i < |job.plan| && Refreshed(job, before, after, stats)
    requires key !in
      {"last_refresh_at", "last_refresh_run_id", "last_refresh_pages", "last_refresh_items", "count_total"}
    requires key == "schema_hash" ==> job.schemas.Expected(job.plan[i]) == ""
    ensures
      var was, now := MetaOf(before, job.plan[i]), MetaOf(after, job.plan[i]);
      (key in now <==> key in was) && (key in was ==> now[key] == was[key])
  {
    assert DatasetRefreshed(job, before, after, job.plan[i], stats[i]);
  }

  // The base address is recorded when there is one.
  lemma BaseAddressRecorded(job: Job, before: Cache, after: Cache, stats: seq<Stats>)
    requires Refreshed(job, before, after, stats)
    ensures job.run.apiBase.Some? && job.run.apiBase.value != "" ==>
      ("source_api_base", job.run.apiBase.value) in after.shared.Items
    ensures job.run.apiBase in {None, Some("")} ==> after.shared == before.shared
  {}
}
