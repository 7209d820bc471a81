// Applying an import plan item by item: counters, error statistics, recorded
// outcomes and the codes that decide the exit code.
// Source: connector/usecases/import_apply_service.py
module ImportApply {
  import opened Basics
  import opened Policies

  const CREATE := "create"
  const UPDATE := "update"

  // What an exception raised along the way carries: the `SECRET_*` code of a missing
  // secret, or nothing the service can tell.
  datatype Raised = MissingSecret(code: string) | Unexpected

  datatype SideEffects = Done(retention: map<string, int>) | SideEffectRaised(raised: Raised)

  // How the adapter, the executor and the hooks answer for one item.
  datatype Answer =
    | RequestRaised(raised: Raised)
    | ExecutorRaised
    | UnknownCodeRaised
    | EmptyResult
    | Refused(systemCode: Option<SystemErrorCode>)
    | Accepted(after: SideEffects)

  datatype Item = Item(rowId: string, op: string, targetId: string, answer: Answer)

  datatype Plan = Plan(dataset: string, items: seq<Item>, skipped: nat)

  datatype Outcome = Outcome(rowId: string, op: string, targetId: string, diagnostic: string)

  function MapSystemCode(c: Option<SystemErrorCode>): string {
    match c
    case Some(AUTH_UNAUTHORIZED) => "SINK_UNAUTHORIZED"
    case Some(AUTH_FORBIDDEN) => "SINK_FORBIDDEN"
    case Some(CONFLICT) => "SINK_CONFLICT"
    case Some(INFRA_TIMEOUT) => "SINK_TIMEOUT"
    case Some(IO_ERROR) => "SINK_IO_ERROR"
    case Some(INFRA_UNAVAILABLE) => "SINK_UNAVAILABLE"
    case _ => "SINK_HTTP_ERROR"
  }

  datatype Settings = Settings(catalog: Catalog, adapterConfigured: bool, sideEffectsAllowed: bool)

  // ----- what one item comes to ------------------------------------------------------------

  datatype Verdict =
    | Applied
    | Failed(diagnostic: string, system: SystemErrorCode, fatal: bool)
    | Aborted

  // Failing with a diagnostic from inside the `try`: a code the strict catalog does not
  // know is itself an unexpected error.
  function FailInside(catalog: Catalog, code: string, mayBeFatal: bool): Verdict {
    match catalog.Classify(code)
    case Some(system) => Failed(code, system, mayBeFatal && DEFAULT_STOP.IsFatal(system))
    case None => FailHandling(catalog, "UNEXPECTED_ERROR")
  }

  // Failing from an exception handler: here an unknown code ends the whole run.
  function FailHandling(catalog: Catalog, code: string): Verdict {
    match catalog.Classify(code)
    case Some(system) => Failed(code, system, false)
    case None => Aborted
  }

  function HandleRaised(catalog: Catalog, raised: Raised): Verdict {
    match raised
    case MissingSecret(code) => FailHandling(catalog, code)
    case Unexpected => FailHandling(catalog, "UNEXPECTED_ERROR")
  }

  function VerdictOf(s: Settings, item: Item): Verdict {
    if !s.adapterConfigured then HandleRaised(s.catalog, Unexpected)
    else match item.answer
      case RequestRaised(raised) => HandleRaised(s.catalog, raised)
      case ExecutorRaised => FailInside(s.catalog, "INTERNAL_ERROR", true)
      case UnknownCodeRaised => HandleRaised(s.catalog, Unexpected)
      case EmptyResult => FailInside(s.catalog, "INTERNAL_ERROR", false)
      case Refused(code) => FailInside(s.catalog, MapSystemCode(code), true)
      case Accepted(SideEffectRaised(raised)) =>
        if s.sideEffectsAllowed then HandleRaised(s.catalog, raised) else Applied
      case Accepted(Done(_)) => Applied
  }

  function OutcomeOf(item: Item, diagnostic: string): Outcome {
    Outcome(item.rowId, item.op, item.targetId, diagnostic)
  }

  // ----- the same, told by the answers alone ----------------------------------------------------

  // The item was accepted, and nothing that was to follow raised.
  predicate Lands(s: Settings, item: Item) {
    s.adapterConfigured && item.answer.Accepted? && (s.sideEffectsAllowed ==> item.answer.after.Done?)
  }

  // The catalog's entries for the sink's diagnostics.
  predicate HasSinkEntries(catalog: Catalog) {
    && ("SINK_UNAUTHORIZED", AUTH_UNAUTHORIZED) in catalog.entries.Items
    && ("SINK_FORBIDDEN", AUTH_FORBIDDEN) in catalog.entries.Items
    && ("SINK_CONFLICT", CONFLICT) in catalog.entries.Items
    && ("SINK_TIMEOUT", INFRA_TIMEOUT) in catalog.entries.Items
    && ("SINK_IO_ERROR", IO_ERROR) in catalog.entries.Items
    && ("SINK_UNAVAILABLE", INFRA_UNAVAILABLE) in catalog.entries.Items
    && ("SINK_HTTP_ERROR", INFRA_UNAVAILABLE) in catalog.entries.Items
  }

  // Through the sink's diagnostic and the catalog a refusal comes back as the code it
  // carried, if that is one of six; any other comes back as INFRA_UNAVAILABLE.
  lemma RefusalKeepsCode(catalog: Catalog, c: Option<SystemErrorCode>)
    requires HasSinkEntries(catalog)
    ensures catalog.Classify(MapSystemCode(c)) == Some(
      if c.Some? && c.value in {AUTH_UNAUTHORIZED, AUTH_FORBIDDEN, CONFLICT, INFRA_TIMEOUT, IO_ERROR, INFRA_UNAVAILABLE}
      then c.value else INFRA_UNAVAILABLE)
  {}

  // The catalog takes the diagnostic.
  predicate Takes(s: Settings, diagnostic: string) {
    diagnostic in s.catalog.entries || !s.catalog.strict
  }

  // The diagnostic of an item that does not land: a missing secret's own code, the sink's
  // code of a refusal, INTERNAL_ERROR where the executor raised or gave nothing, and
  // UNEXPECTED_ERROR otherwise or where the catalog does not take the last two.
  function Told(s: Settings, item: Item): string {
    if !s.adapterConfigured then "UNEXPECTED_ERROR"
    else match item.answer
      case RequestRaised(MissingSecret(code)) => code
      case Accepted(SideEffectRaised(MissingSecret(code))) => code
      case Refused(c) => if Takes(s, MapSystemCode(c)) then MapSystemCode(c) else "UNEXPECTED_ERROR"
      case ExecutorRaised => if Takes(s, "INTERNAL_ERROR") then "INTERNAL_ERROR" else "UNEXPECTED_ERROR"
      case EmptyResult => if Takes(s, "INTERNAL_ERROR") then "INTERNAL_ERROR" else "UNEXPECTED_ERROR"
      case _ => "UNEXPECTED_ERROR"
  }

  predicate FatalCode(s: Settings, diagnostic: string) {
    diagnostic in s.catalog.entries
    && (|| s.catalog.entries[diagnostic] == AUTH_UNAUTHORIZED || s.catalog.entries[diagnostic] == AUTH_FORBIDDEN
        || s.catalog.entries[diagnostic] == INTERNAL_ERROR)
  }

  // Only an executor that raised or refused can make an item fatal.
  predicate FatalAnswer(s: Settings, item: Item) {
    s.adapterConfigured
    && match item.answer
       case ExecutorRaised => FatalCode(s, "INTERNAL_ERROR")
       case Refused(c) => FatalCode(s, MapSystemCode(c))
       case _ => false
  }

  predicate FailsTold(s: Settings, item: Item) {
    !Lands(s, item) && Takes(s, Told(s, item))
  }

  lemma VerdictByAnswer(s: Settings, item: Item)
    ensures VerdictOf(s, item).Applied? <==> Lands(s, item)
    ensures VerdictOf(s, item).Failed? <==> FailsTold(s, item)
    ensures VerdictOf(s, item).Failed? ==>
      var v := VerdictOf(s, item);
      && v.diagnostic == Told(s, item) && s.catalog.Classify(Told(s, item)) == Some(v.system)
      && (v.fatal <==> FatalAnswer(s, item))
  {
  }

  lemma RetainedByAnswer(s: Settings, item: Item, key: string)
    ensures Retained(s, item, key) ==
      if s.sideEffectsAllowed && s.adapterConfigured && item.answer.Accepted? && item.answer.after.Done?
      then Get(item.answer.after.retention, key) else 0
  {
    VerdictByAnswer(s, item);
  }

  // A refusal is fatal exactly where the target turned the account away: a refusal with
  // INTERNAL_ERROR, fatal by itself, comes back as INFRA_UNAVAILABLE.
  lemma FatalRefusals(s: Settings, item: Item)
    requires s.adapterConfigured && HasSinkEntries(s.catalog) && item.answer.Refused?
    ensures FatalAnswer(s, item) <==> item.answer.systemCode in {Some(AUTH_UNAUTHORIZED), Some(AUTH_FORBIDDEN)}
  {
    RefusalKeepsCode(s.catalog, item.answer.systemCode);
  }

  // ----- what the counters should come to ----------------------------------------------------

  // The failures among the items, in plan order.
  ghost function Failures(s: Settings, items: seq<Item>): seq<Outcome> {
    if items == [] then [] else
      Failures(s, items[..|items| - 1])
        + match VerdictOf(s, Last(items)) case Failed(d, _, _) => [OutcomeOf(Last(items), d)] case _ => []
  }

  ghost function AppliedWith(s: Settings, items: seq<Item>, op: string): nat {
    if items == [] then 0 else
      AppliedWith(s, items[..|items| - 1], op)
        + if VerdictOf(s, Last(items)).Applied? && Last(items).op == op then 1 else 0
  }

  ghost function FailureCodes(s: Settings, items: seq<Item>): Codes {
    if items == [] then {} else
      FailureCodes(s, items[..|items| - 1]) + match VerdictOf(s, Last(items)) case Failed(_, c, _) => {c} case _ => {}
  }

  ghost function Occurrences(outcomes: seq<Outcome>, code: string): nat {
    if outcomes == [] then 0
    else Occurrences(outcomes[..|outcomes| - 1], code) + if Last(outcomes).diagnostic == code then 1 else 0
  }

  ghost predicate AnyFatal(s: Settings, items: seq<Item>) {
    exists item :: item in items && VerdictOf(s, item).Failed? && VerdictOf(s, item).fatal
  }

  ghost predicate NoneAborts(s: Settings, items: seq<Item>) {
    forall item :: item in items ==> !VerdictOf(s, item).Aborted?
  }

  datatype Limits = Limits(stopOnFirstError: bool, maxActions: Option<int>, maxOutcomes: int)
  {
    predicate Reached(n: int) { maxActions.Some? && n >= maxActions.value }
  }

  // The loop goes on past the first n items.
  ghost predicate GoesOn(s: Settings, items: seq<Item>, limits: Limits, n: int)
    requires 0 <= n <= |items|
  {
    n < |items| && !limits.Reached(n) && !(limits.stopOnFirstError && n > 0 && VerdictOf(s, items[n - 1]).Failed?)
  }

  // How many items are processed: the loop goes on until then, and no further.
  ghost predicate IsProcessed(s: Settings, items: seq<Item>, limits: Limits, n: int) {
    0 <= n <= |items| && !GoesOn(s, items, limits, n) && forall k :: 0 <= k < n ==> GoesOn(s, items, limits, k)
  }

  // The loop reaches an item whose diagnostic the strict catalog does not know.
  ghost predicate AbortsAt(s: Settings, items: seq<Item>, limits: Limits, n: int) {
    0 <= n < |items| && VerdictOf(s, items[n]).Aborted? && forall k :: 0 <= k <= n ==> GoesOn(s, items, limits, k)
  }

  // ----- the context of one run --------------------------------------------------------------

  ghost function FirstOutcomes(outcomes: seq<Outcome>, limit: int): seq<Outcome> {
    if limit <= 0 then [] else if |outcomes| <= limit then outcomes else outcomes[..limit]
  }

  function Get(counts: map<string, int>, key: string): int {
    if key in counts then counts[key] else 0
  }

  ghost function RetentionOf(s: Settings, items: seq<Item>, key: string): int {
    if items == [] then 0 else
      RetentionOf(s, items[..|items| - 1], key) + Retained(s, Last(items), key)
  }

  ghost function Retained(s: Settings, item: Item, key: string): int {
    match item.answer
    case Accepted(Done(counts)) => if VerdictOf(s, item).Applied? && s.sideEffectsAllowed then Get(counts, key) else 0
    case _ => 0
  }

  // What processing these items should have registered.
  datatype Register = Register(errorStats: map<string, int>, retention: map<string, int>, codes: Codes,
      outcomes: seq<Outcome>, dropped: bool)

  ghost predicate Registers(r: Register, s: Settings, items: seq<Item>, limit: int) {
    var failures := Failures(s, items);
    && r.codes == FailureCodes(s, items)
    && r.outcomes == FirstOutcomes(failures, limit)
    && (r.dropped <==> |failures| > |r.outcomes|)
    && (forall code {:trigger Occurrences(failures, code)} :: Get(r.errorStats, code) == Occurrences(failures, code))
    && (forall key {:trigger RetentionOf(s, items, key)} :: Get(r.retention, key) == RetentionOf(s, items, key))
  }

  function WithFailure(r: Register, o: Outcome, system: SystemErrorCode, limit: int): Register {
    var keep := |r.outcomes| < limit;
    Register(r.errorStats[o.diagnostic := Get(r.errorStats, o.diagnostic) + 1], r.retention, r.codes + {system},
      if keep then r.outcomes + [o] else r.outcomes, r.dropped || !keep)
  }

  lemma FirstOutcomesSnoc(failures: seq<Outcome>, o: Outcome, limit: int)
    ensures
      var kept, now := FirstOutcomes(failures, limit), FirstOutcomes(failures + [o], limit);
      now == (if |kept| < limit then kept + [o] else kept)
      && (|failures + [o]| > |now| <==> |failures| > |kept| || !(|kept| < limit))
  {}

  lemma OccurrencesSnoc(failures: seq<Outcome>, o: Outcome, code: string)
    ensures Occurrences(failures + [o], code) == Occurrences(failures, code) + if o.diagnostic == code then 1 else 0
  {
    assert (failures + [o])[..|failures + [o]| - 1] == failures;
  }

  lemma FailureRegistered(r: Register, s: Settings, items: seq<Item>, item: Item, limit: int)
    requires Registers(r, s, items, limit) && VerdictOf(s, item).Failed?
    ensures
      var v := VerdictOf(s, item);
      Registers(WithFailure(r, OutcomeOf(item, v.diagnostic), v.system, limit), s, items + [item], limit)
  {
    var v := VerdictOf(s, item);
    var o := OutcomeOf(item, v.diagnostic);
    var next := WithFailure(r, o, v.system, limit);
    var before := Failures(s, items);
    assert (items + [item])[..|items|] == items;
    assert Failures(s, items + [item]) == before + [o];
    FirstOutcomesSnoc(before, o, limit);
    forall code ensures Get(next.errorStats, code) == Occurrences(before + [o], code) {
      OccurrencesSnoc(before, o, code);
    }
    forall key ensures Get(next.retention, key) == RetentionOf(s, items + [item], key) {
      assert Get(r.retention, key) == RetentionOf(s, items, key);
    }
  }

  lemma SuccessRegistered(r: Register, next: Register, s: Settings, items: seq<Item>, item: Item, limit: int)
    requires Registers(r, s, items, limit) && VerdictOf(s, item).Applied?
    requires next == r.(retention := next.retention)
    requires forall key :: Get(next.retention, key) == Get(r.retention, key) + Retained(s, item, key)
    ensures Registers(next, s, items + [item], limit)
  {
    assert (items + [item])[..|items|] == items;
    assert Failures(s, items) + [] == Failures(s, items);
  }

  class ItemProcessContext {
    const catalog: Catalog
    const maxOutcomes: int
    var errorStats: map<string, int>
    var retentionStats: map<string, int>
    var systemCodes: Codes
    var outcomes: seq<Outcome>
    var outcomesDropped: bool

    constructor (catalog: Catalog, maxOutcomes: int)
      ensures this.catalog == catalog && this.maxOutcomes == maxOutcomes
      ensures Contents() == Register(map[], map[], {}, [], false)
    {
      this.catalog, this.maxOutcomes := catalog, maxOutcomes;
      errorStats, retentionStats, systemCodes, outcomes, outcomesDropped := map[], map[], {}, [], false;
    }

    function Contents(): Register
      reads this
    {
      Register(errorStats, retentionStats, systemCodes, outcomes, outcomesDropped)
    }

    method RegisterError(diagnostic: string, system: SystemErrorCode)
      modifies this
      ensures Contents() == old(Contents()).(
        errorStats := old(errorStats)[diagnostic := Get(old(errorStats), diagnostic) + 1],
        codes := old(systemCodes) + {system})
    {
      errorStats := errorStats[diagnostic := Get(errorStats, diagnostic) + 1];
      systemCodes := systemCodes + {system};
    }

    method AddOutcome(o: Outcome)
      modifies this
      ensures Contents() == if |old(outcomes)| < maxOutcomes
        then old(Contents()).(outcomes := old(outcomes) + [o])
        else old(Contents()).(dropped := true)
    {
      if |outcomes| < maxOutcomes {
        outcomes := outcomes + [o];
      } else {
        outcomesDropped := true;
      }
    }

    method RegisterRetention(counters: map<string, int>)
      modifies this
      ensures Contents() == old(Contents()).(retention := retentionStats)
      ensures forall key :: Get(retentionStats, key) == Get(old(retentionStats), key) + Get(counters, key)
    {
      retentionStats := map key | key in retentionStats.Keys + counters.Keys ::
        Get(retentionStats, key) + Get(counters, key);
    }
  }

  // ----- one item ---------------------------------------------------------------------------------

  datatype ItemResult = ItemResult(created: nat, updated: nat, failed: nat, fatal: bool)

  class ImportApplyService {
    const sideEffectsAllowed: bool

    constructor (sideEffectsAllowed: bool)
      ensures this.sideEffectsAllowed == sideEffectsAllowed
    {
      this.sideEffectsAllowed := sideEffectsAllowed;
    }

    function SettingsFor(catalog: Catalog, adapterConfigured: bool): Settings {
      Settings(catalog, adapterConfigured, sideEffectsAllowed)
    }

    // Registers one diagnostic; an unknown code raises before anything is registered.
    method FailItem(item: Item, code: string, mayBeFatal: bool, context: ItemProcessContext)
      returns (r: Option<ItemResult>)
      modifies context
      ensures r == None <==> context.catalog.Classify(code) == None
      ensures r == None ==> context.Contents() == old(context.Contents())
      ensures r.Some? ==>
        var system := context.catalog.Classify(code).value;
        r.value == ItemResult(0, 0, 1, mayBeFatal && DEFAULT_STOP.IsFatal(system))
        && context.Contents() == WithFailure(old(context.Contents()), OutcomeOf(item, code), system,
          context.maxOutcomes)
    {
      var system := context.catalog.Classify(code);
      if system == None { return None; }
      context.RegisterError(code, system.value);
      context.AddOutcome(OutcomeOf(item, code));
      return Some(ItemResult(0, 0, 1, mayBeFatal && DEFAULT_STOP.IsFatal(system.value)));
    }

    method HandleException(item: Item, raised: Raised, context: ItemProcessContext) returns (r: Option<ItemResult>)
      modifies context
      ensures HandledAs(HandleRaised(context.catalog, raised), item, r, old(context.Contents()), context.Contents(),
        context.maxOutcomes)
    {
      r := FailItem(item, match raised case MissingSecret(code) => code case Unexpected => "UNEXPECTED_ERROR", false,
        context);
    }

    method FailInTry(item: Item, code: string, mayBeFatal: bool, context: ItemProcessContext)
      returns (r: Option<ItemResult>)
      modifies context
      ensures HandledAs(FailInside(context.catalog, code, mayBeFatal), item, r, old(context.Contents()),
        context.Contents(), context.maxOutcomes)
    {
      r := FailItem(item, code, mayBeFatal, context);
      if r == None { r := HandleException(item, Unexpected, context); }
    }

    // None when the exception leaves `_process_item`.
    method ProcessItem(item: Item, adapterConfigured: bool, context: ItemProcessContext) returns (r: Option<ItemResult>)
      modifies context
      ensures Handles(SettingsFor(context.catalog, adapterConfigured), item, r, old(context.Contents()),
        context.Contents(), context.maxOutcomes)
      ensures var s := SettingsFor(context.catalog, adapterConfigured);
        && (r == None <==> !Lands(s, item) && !Takes(s, Told(s, item)))
        && (r.Some? ==>
              && r.value.created == (if Lands(s, item) && item.op == "create" then 1 else 0)
              && r.value.updated == (if Lands(s, item) && item.op == "update" then 1 else 0)
              && r.value.failed == (if Lands(s, item) then 0 else 1)
              && (r.value.fatal <==> FatalAnswer(s, item)))
    {
      VerdictByAnswer(SettingsFor(context.catalog, adapterConfigured), item);
      if !adapterConfigured {
        r := HandleException(item, Unexpected, context);
        return;
      }
      match item.answer
      case RequestRaised(raised) => r := HandleException(item, raised, context);
      case ExecutorRaised => r := FailInTry(item, "INTERNAL_ERROR", true, context);
      case UnknownCodeRaised => r := HandleException(item, Unexpected, context);
      case EmptyResult => r := FailInTry(item, "INTERNAL_ERROR", false, context);
      case Refused(code) => r := FailInTry(item, MapSystemCode(code), true, context);
      case Accepted(after) =>
        var done := ItemResult(if item.op == CREATE then 1 else 0, if item.op == UPDATE then 1 else 0, 0, false);
        if !sideEffectsAllowed { return Some(done); }
        match after
        case SideEffectRaised(raised) => r := HandleException(item, raised, context);
        case Done(retention) =>
          context.RegisterRetention(retention);
          r := Some(done);
    }

    // The apply loop; None when an exception leaves it.
    method ApplyItems(items: seq<Item>, adapterConfigured: bool, limits: Limits, context: ItemProcessContext)
      returns (r: Option<Tally>)
      requires context.Contents() == Register(map[], map[], {}, [], false) && context.maxOutcomes == limits.maxOutcomes
      modifies context
      ensures r == None ==> exists n :: AbortsAt(SettingsFor(context.catalog, adapterConfigured), items, limits, n)
      ensures r.Some? ==>
        var s, n := SettingsFor(context.catalog, adapterConfigured), r.value.actions;
        IsProcessed(s, items, limits, n) && Accounted(context.Contents(), r.value, s, items[..n], limits.maxOutcomes)
    {
      ghost var s := SettingsFor(context.catalog, adapterConfigured);
      var t := Tally(0, 0, 0, 0, false);
      EmptyRegister(s, limits.maxOutcomes);
      for i := 0 to |items|
        invariant t.actions == i && OpenAt(s, items, limits, i)
        invariant Accounted(context.Contents(), t, s, items[..i], limits.maxOutcomes)
      {
        if limits.maxActions.Some? && t.actions >= limits.maxActions.value {
          EndsHere(s, items, limits, i);
          return Some(t);
        }
        ghost var was := context.Contents();
        var step := ProcessItem(items[i], adapterConfigured, context);
        if step == None {
          AbortsHere(s, items, limits, i, was, context.Contents());
          return None;
        }
        PassStep(was, context.Contents(), t, s, items, limits, i, step.value);
        t := t.Plus(step.value);
        if limits.stopOnFirstError && step.value.failed > 0 { return Some(t); }
      }
      assert items[..|items|] == items;
      EndsHere(s, items, limits, |items|);
      return Some(t);
    }

    // The result counts exactly the processed items.
    method ApplyPlan(plan: Plan, catalog: Catalog, adapterConfigured: bool, limits: Limits)
      returns (r: Result<ApplyResult, ApplyError>)
      ensures r == Err(MissingDataset) <==> plan.dataset == ""
      ensures r == Err(UnknownDiagnosticCode) <==>
        plan.dataset != "" && exists n :: AbortsAt(SettingsFor(catalog, adapterConfigured), plan.items, limits, n)
      ensures r.Ok? ==>
        var s, n := SettingsFor(catalog, adapterConfigured), r.value.summary.itemsTotal;
        IsProcessed(s, plan.items, limits, n) && NoneAborts(s, plan.items[..n])
        && Summarises(r.value, s, plan.items[..n], limits.maxOutcomes)
        && ToldByAnswers(r.value, s, plan.items[..n]) && r.value.summary.skipped == plan.skipped
    {
      if plan.dataset == "" { return Err(MissingDataset); }
      var context := new ItemProcessContext(catalog, limits.maxOutcomes);
      ghost var s := SettingsFor(catalog, adapterConfigured);
      var tally := ApplyItems(plan.items, adapterConfigured, limits, context);
      if tally == None { return Err(UnknownDiagnosticCode); }
      var t := tally.value;
      NoAbort(s, plan.items, limits, t.actions);
      var codes := if context.systemCodes == {} then {OK} else context.systemCodes;
      var summary := ApplySummary(t.created, t.updated, t.failed, plan.skipped, t.actions, context.errorStats,
        context.retentionStats);
      var result := ApplyResult(summary, ResolvePrimaryCode(codes, DEFAULT_STOP), Ascending(codes), t.fatal,
        context.outcomes, context.outcomesDropped);
      SummaryHolds(result, context.Contents(), t, codes, s, plan.items[..t.actions], limits.maxOutcomes);
      ResultByAnswers(result, s, plan.items[..t.actions], limits.maxOutcomes);
      return Ok(result);
    }
  }

  datatype Tally = Tally(created: nat, updated: nat, failed: nat, actions: nat, fatal: bool)
  {
    function Plus(r: ItemResult): Tally {
      Tally(created + r.created, updated + r.updated, failed + r.failed, actions + 1, fatal || r.fatal)
    }
  }

  ghost predicate Handles(s: Settings, item: Item, r: Option<ItemResult>, before: Register, now: Register, limit: int) {
    && HandledAs(VerdictOf(s, item), item, r, before, now, limit)
    && (VerdictOf(s, item).Applied? ==> forall key ::
      Get(now.retention, key) == Get(before.retention, key) + Retained(s, item, key))
  }

  // A result told by the items' answers: what is counted, under which diagnostics, and
  // the k-th outcome is that of the k-th item that did not land.
  ghost predicate ToldByAnswers(r: ApplyResult, s: Settings, items: seq<Item>) {
    && r.summary.created == |Places(items, (x: Item) => Lands(s, x) && x.op == "create")|
    && r.summary.updated == |Places(items, (x: Item) => Lands(s, x) && x.op == "update")|
    && r.summary.failed == |Places(items, (x: Item) => !Lands(s, x))|
    && (r.fatalError <==> exists x :: x in items && FatalAnswer(s, x))
    && (forall code :: StatTold(r.summary.errorStats, s, items, code))
    && (forall c :: c in r.allCodes <==> if r.summary.failed == 0 then c == OK else CodeTold(s, items, c))
    && (forall k :: 0 <= k < |r.itemOutcomes| ==> OutcomeTold(s, items, k, r.itemOutcomes[k]))
  }

  ghost predicate StatTold(stats: map<string, int>, s: Settings, items: seq<Item>, code: string) {
    Get(stats, code) == |Places(items, (x: Item) => !Lands(s, x) && Told(s, x) == code)|
  }

  ghost predicate CodeTold(s: Settings, items: seq<Item>, c: SystemErrorCode) {
    exists x :: x in items && !Lands(s, x) && s.catalog.Classify(Told(s, x)) == Some(c)
  }

  ghost predicate OutcomeTold(s: Settings, items: seq<Item>, k: nat, o: Outcome) {
    exists i :: OutcomeAt(s, items, i, k, o)
  }

  ghost predicate OutcomeAt(s: Settings, items: seq<Item>, i: int, k: nat, o: Outcome) {
    && 0 <= i < |items| && !Lands(s, items[i]) && |Places(items[..i], (x: Item) => !Lands(s, x))| == k
    && o.rowId == items[i].rowId && o.op == items[i].op && o.targetId == items[i].targetId
    && o.diagnostic == Told(s, items[i])
  }

  lemma {:induction false} CountsByAnswers(s: Settings, items: seq<Item>, op: string)
    requires NoneAborts(s, items)
    ensures AppliedWith(s, items, op) == |Places(items, (x: Item) => Lands(s, x) && x.op == op)|
    ensures |Failures(s, items)| == |Places(items, (x: Item) => !Lands(s, x))|
  {
    if items == [] {
    } else {
      var front, last := items[..|items| - 1], Last(items);
      assert items == front + [last];
      CountsByAnswers(s, front, op);
      VerdictByAnswer(s, last);
      PlacesSnoc(front, last, (x: Item) => Lands(s, x) && x.op == op);
      PlacesSnoc(front, last, (x: Item) => !Lands(s, x));
    }
  }

  lemma {:induction false} StatsByAnswers(s: Settings, items: seq<Item>, code: string)
    requires NoneAborts(s, items)
    ensures Occurrences(Failures(s, items), code)
      == |Places(items, (x: Item) => !Lands(s, x) && Told(s, x) == code)|
  {
    if items == [] {
    } else {
      var front, last := items[..|items| - 1], Last(items);
      assert items == front + [last];
      StatsByAnswers(s, front, code);
      VerdictByAnswer(s, last);
      PlacesSnoc(front, last, (x: Item) => !Lands(s, x) && Told(s, x) == code);
      if VerdictOf(s, last).Failed? {
        OccurrencesSnoc(Failures(s, front), OutcomeOf(last, Told(s, last)), code);
      } else {
        assert Failures(s, front) + [] == Failures(s, front);
      }
    }
  }

  lemma {:induction false} OutcomesByAnswers(s: Settings, items: seq<Item>, k: nat)
    requires NoneAborts(s, items) && k < |Failures(s, items)|
    ensures OutcomeTold(s, items, k, Failures(s, items)[k])
  {
    var front, last := items[..|items| - 1], Last(items);
    assert items == front + [last];
    VerdictByAnswer(s, last);
    if k < |Failures(s, front)| {
      OutcomesByAnswers(s, front, k);
      var i :| OutcomeAt(s, front, i, k, Failures(s, front)[k]);
      assert items[..i] == front[..i];
      assert OutcomeAt(s, items, i, k, Failures(s, items)[k]);
    } else {
      CountsByAnswers(s, front, CREATE);
      assert OutcomeAt(s, items, |front|, k, Failures(s, items)[k]);
    }
  }

  lemma CodesByAnswers(s: Settings, items: seq<Item>, c: SystemErrorCode)
    ensures c in FailureCodes(s, items) <==> CodeTold(s, items, c)
  {
    FailureCodeSource(s, items, c);
    forall x | x in items
      ensures FailsWith(s, x, c) <==> !Lands(s, x) && s.catalog.Classify(Told(s, x)) == Some(c)
    {
      VerdictByAnswer(s, x);
    }
  }

  lemma FatalByAnswers(s: Settings, items: seq<Item>)
    ensures AnyFatal(s, items) <==> exists x :: x in items && FatalAnswer(s, x)
  {
    forall x | x in items ensures VerdictOf(s, x).Failed? && VerdictOf(s, x).fatal <==> FatalAnswer(s, x) {
      VerdictByAnswer(s, x);
    }
  }

  // A result that summarises items none of which aborts is told by their answers.
  lemma ResultByAnswers(r: ApplyResult, s: Settings, items: seq<Item>, limit: int)
    requires Summarises(r, s, items, limit) && NoneAborts(s, items)
    ensures ToldByAnswers(r, s, items)
  {
    CountsByAnswers(s, items, CREATE);
    CountsByAnswers(s, items, UPDATE);
    FatalByAnswers(s, items);
    forall code ensures StatTold(r.summary.errorStats, s, items, code) {
      StatsByAnswers(s, items, code);
      assert Get(r.summary.errorStats, code) == Occurrences(Failures(s, items), code);
    }
    forall c ensures c in r.allCodes <==> if r.summary.failed == 0 then c == OK else CodeTold(s, items, c) {
      CodesByAnswers(s, items, c);
    }
    OutcomesAreFirstFailures(r, s, items, limit);
    forall k | 0 <= k < |r.itemOutcomes| ensures OutcomeTold(s, items, k, r.itemOutcomes[k]) {
      OutcomesByAnswers(s, items, k);
      assert r.itemOutcomes[k] == Failures(s, items)[k];
    }
  }

  datatype ApplyError = MissingDataset | UnknownDiagnosticCode

  datatype ApplySummary = ApplySummary(created: nat, updated: nat, failed: nat, skipped: nat, itemsTotal: nat,
    errorStats: map<string, int>, retentionStats: map<string, int>)

  datatype ApplyResult = ApplyResult(
    summary: ApplySummary, primaryCode: SystemErrorCode, allCodes: seq<SystemErrorCode>,
    fatalError: bool, itemOutcomes: seq<Outcome>, outcomesTruncated: bool)

  ghost predicate Counts(t: Tally, s: Settings, items: seq<Item>) {
    && t.created == AppliedWith(s, items, CREATE) && t.updated == AppliedWith(s, items, UPDATE)
    && t.failed == |Failures(s, items)| && t.actions == |items| && (t.fatal <==> AnyFatal(s, items))
  }

  ghost predicate Summarises(r: ApplyResult, s: Settings, items: seq<Item>, limit: int) {
    && Counts(
      Tally(r.summary.created, r.summary.updated, r.summary.failed, r.summary.itemsTotal, r.fatalError), s, items)
    && Registers(
      Register(r.summary.errorStats, r.summary.retentionStats, FailureCodes(s, items), r.itemOutcomes,
        r.outcomesTruncated),
      s, items, limit)
    && SortedCodes(r.allCodes) && Elems(r.allCodes) == (if r.summary.failed == 0 then {OK} else FailureCodes(s, items))
    && r.primaryCode == ResolvePrimaryCode(Elems(r.allCodes), DEFAULT_STOP)
  }

  lemma SummaryHolds(r: ApplyResult, g: Register, t: Tally, codes: Codes, s: Settings, items: seq<Item>, limit: int)
    requires Registers(g, s, items, limit) && Counts(t, s, items)
    requires codes == if g.codes == {} then {OK} else g.codes
    requires r.primaryCode == ResolvePrimaryCode(codes, DEFAULT_STOP) && r.allCodes == Ascending(codes)
    requires r.itemOutcomes == g.outcomes && r.outcomesTruncated == g.dropped && r.fatalError == t.fatal
    requires r.summary == ApplySummary(t.created, t.updated, t.failed, r.summary.skipped, t.actions, g.errorStats,
      g.retention)
    ensures Summarises(r, s, items, limit)
  {
    CodesOfFailures(s, items);
    AscendingSorted(codes);
    assert Elems(Ascending(codes)) == codes;
  }

  // Counters and register agree with these items, none of which aborts.
  ghost predicate Accounted(g: Register, t: Tally, s: Settings, items: seq<Item>, limit: int) {
    NoneAborts(s, items) && Registers(g, s, items, limit) && Counts(t, s, items)
  }

  lemma AccountedStep(before: Register, now: Register, t: Tally, s: Settings, items: seq<Item>, item: Item,
      r: ItemResult, limit: int)
    requires Accounted(before, t, s, items, limit) && Handles(s, item, Some(r), before, now, limit)
    ensures Accounted(now, t.Plus(r), s, items + [item], limit)
    ensures r.failed > 0 <==> VerdictOf(s, item).Failed?
  {
    Processed(s, items, item, before, now, r, limit);
    CountsSnoc(t, s, items, item, r);
  }

  // The loop has not ended before its i-th pass.
  ghost predicate OpenAt(s: Settings, items: seq<Item>, limits: Limits, i: int) {
    0 <= i <= |items| && (forall k :: 0 <= k < i ==> GoesOn(s, items, limits, k))
    && (limits.stopOnFirstError && i > 0 ==> !VerdictOf(s, items[i - 1]).Failed?)
  }

  lemma EndsHere(s: Settings, items: seq<Item>, limits: Limits, i: int)
    requires OpenAt(s, items, limits, i) && (i == |items| || limits.Reached(i))
    ensures IsProcessed(s, items, limits, i)
  {}

  lemma AbortsHere(s: Settings, items: seq<Item>, limits: Limits, i: int, before: Register, now: Register)
    requires OpenAt(s, items, limits, i) && i < |items| && !limits.Reached(i)
    requires Handles(s, items[i], None, before, now, limits.maxOutcomes)
    ensures exists n :: AbortsAt(s, items, limits, n)
  {
    assert AbortsAt(s, items, limits, i);
  }

  lemma LoopStep(s: Settings, items: seq<Item>, limits: Limits, i: int)
    requires OpenAt(s, items, limits, i) && i < |items| && !limits.Reached(i)
    ensures
      if limits.stopOnFirstError && VerdictOf(s, items[i]).Failed? then IsProcessed(s, items, limits, i + 1)
      else OpenAt(s, items, limits, i + 1)
  {
    assert GoesOn(s, items, limits, i);
  }

  // One pass of the loop, and whether another one follows.
  lemma PassStep(before: Register, now: Register, t: Tally, s: Settings, items: seq<Item>, limits: Limits, i: int,
      r: ItemResult)
    requires OpenAt(s, items, limits, i) && i < |items| && !limits.Reached(i)
    requires Accounted(before, t, s, items[..i], limits.maxOutcomes)
      && Handles(s, items[i], Some(r), before, now, limits.maxOutcomes)
    ensures t.actions == i && Accounted(now, t.Plus(r), s, items[..i + 1], limits.maxOutcomes)
    ensures if limits.stopOnFirstError && r.failed > 0 then IsProcessed(s, items, limits, i + 1)
            else OpenAt(s, items, limits, i + 1)
  {
    assert items[..i + 1] == items[..i] + [items[i]];
    AccountedStep(before, now, t, s, items[..i], items[i], r, limits.maxOutcomes);
    LoopStep(s, items, limits, i);
  }

  lemma EmptyRegister(s: Settings, limit: int)
    ensures Accounted(Register(map[], map[], {}, [], false), Tally(0, 0, 0, 0, false), s, [], limit)
  {}

  lemma NoAbort(s: Settings, items: seq<Item>, limits: Limits, n: nat)
    requires IsProcessed(s, items, limits, n) && NoneAborts(s, items[..n])
    ensures !exists k :: AbortsAt(s, items, limits, k)
  {
    forall k ensures !AbortsAt(s, items, limits, k) {
      if 0 <= k < n { assert items[k] in items[..n]; }
    }
  }

  lemma Processed(s: Settings, items: seq<Item>, item: Item, before: Register, now: Register, r: ItemResult, limit: int)
    requires Registers(before, s, items, limit) && HandledAs(VerdictOf(s, item), item, Some(r), before, now, limit)
    requires VerdictOf(s, item).Applied? ==> forall key ::
      Get(now.retention, key) == Get(before.retention, key) + Retained(s, item, key)
    ensures Registers(now, s, items + [item], limit)
  {
    match VerdictOf(s, item)
    case Applied => SuccessRegistered(before, now, s, items, item, limit);
    case Failed(_, _, _) => FailureRegistered(before, s, items, item, limit);
  }

  lemma CountsSnoc(t: Tally, s: Settings, items: seq<Item>, item: Item, r: ItemResult)
    requires Counts(t, s, items)
    requires match VerdictOf(s, item)
      case Aborted => false
      case Applied => r == ItemResult(if item.op == CREATE then 1 else 0, if item.op == UPDATE then 1 else 0, 0, false)
      case Failed(_, _, f) => r == ItemResult(0, 0, 1, f)
    ensures Counts(t.Plus(r), s, items + [item])
  {
    assert (items + [item])[..|items|] == items;
    assert forall x :: x in items + [item] <==> x in items || x == item;
  }

  lemma {:induction false} CodesOfFailures(s: Settings, items: seq<Item>)
    ensures FailureCodes(s, items) == {} <==> Failures(s, items) == []
  {
    if items == [] {
    } else {
      CodesOfFailures(s, items[..|items| - 1]);
    }
  }

  // A verdict is counted and registered the way the loop expects.
  ghost predicate HandledAs(v: Verdict, item: Item, r: Option<ItemResult>, before: Register, now: Register, limit: int)
  {
    match v
    case Aborted => r == None
    case Applied =>
      r == Some(ItemResult(if item.op == CREATE then 1 else 0, if item.op == UPDATE then 1 else 0, 0, false))
      && now == before.(retention := now.retention)
    case Failed(code, system, fatal) =>
      r == Some(ItemResult(0, 0, 1, fatal)) && now == WithFailure(before, OutcomeOf(item, code), system, limit)
  }

  // ----- what the result means ---------------------------------------------------------------------

  // Processed items are a prefix ended by the plan's end, the action limit or a failure.
  lemma ProcessedEnds(s: Settings, items: seq<Item>, limits: Limits, n: int)
    requires IsProcessed(s, items, limits, n)
    ensures limits.maxActions.Some? ==> n == 0 || n <= limits.maxActions.value
    ensures n == |items| || limits.Reached(n)
      || (limits.stopOnFirstError && n > 0 && VerdictOf(s, items[n - 1]).Failed?)
    ensures limits.stopOnFirstError ==> forall k :: 0 <= k < n - 1 ==> !VerdictOf(s, items[k]).Failed?
    ensures NoneAborts(s, items[..n]) ==>
      && (n == |items| || limits.Reached(n) || (limits.stopOnFirstError && n > 0 && !Lands(s, items[n - 1])))
      && (limits.stopOnFirstError ==> forall k :: 0 <= k < n - 1 ==> Lands(s, items[k]))
  {
    forall k | 0 <= k < n ensures items[k] in items[..n] { assert items[..n][k] == items[k]; }
    forall k | 0 <= k < n ensures VerdictOf(s, items[k]).Applied? <==> Lands(s, items[k]) {
      VerdictByAnswer(s, items[k]);
    }
    if n > 0 { assert GoesOn(s, items, limits, n - 1); }
    if limits.stopOnFirstError {
      forall k | 0 <= k < n - 1 ensures !VerdictOf(s, items[k]).Failed? { assert GoesOn(s, items, limits, k + 1); }
    }
  }

  // The run ends in an exception exactly at the first item whose diagnostic the catalog
  // does not take, unless the loop has ended before.
  lemma AbortsAtIff(s: Settings, items: seq<Item>, limits: Limits, n: int)
    ensures AbortsAt(s, items, limits, n) <==>
      && 0 <= n < |items| && !Lands(s, items[n]) && !Takes(s, Told(s, items[n]))
      && (forall k :: 0 <= k <= n ==> !limits.Reached(k))
      && (limits.stopOnFirstError ==> forall k :: 0 <= k < n ==> !FailsTold(s, items[k]))
  {
    forall k | 0 <= k < |items|
      ensures VerdictOf(s, items[k]).Failed? <==> FailsTold(s, items[k])
      ensures VerdictOf(s, items[k]).Aborted? <==> !Lands(s, items[k]) && !Takes(s, Told(s, items[k]))
    {
      VerdictByAnswer(s, items[k]);
    }
    if 0 <= n < |items| { OpenIff(s, items, limits, n); }
  }

  lemma OpenIff(s: Settings, items: seq<Item>, limits: Limits, n: int)
    requires 0 <= n < |items|
    ensures (forall k :: 0 <= k <= n ==> GoesOn(s, items, limits, k)) <==>
      && (forall k :: 0 <= k <= n ==> !limits.Reached(k))
      && (limits.stopOnFirstError ==> forall k :: 0 <= k < n ==> !VerdictOf(s, items[k]).Failed?)
  {
    if forall k :: 0 <= k <= n ==> GoesOn(s, items, limits, k) {
      forall k | 0 <= k <= n ensures !limits.Reached(k) { assert GoesOn(s, items, limits, k); }
      if limits.stopOnFirstError {
        forall k | 0 <= k < n ensures !VerdictOf(s, items[k]).Failed? { assert GoesOn(s, items, limits, k + 1); }
      }
    }
  }

  lemma FailureAlone(s: Settings, item: Item, d: string, c: SystemErrorCode, f: bool)
    requires VerdictOf(s, item) == Failed(d, c, f)
    ensures Failures(s, [item]) == [OutcomeOf(item, d)] && FailureCodes(s, [item]) == {c}
    ensures forall op :: AppliedWith(s, [item], op) == 0
  {
    assert [item][..0] == [];
    assert Failures(s, []) == [] && FailureCodes(s, []) == {};
  }

  lemma OneOccurrence(o: Outcome)
    ensures Occurrences([o], o.diagnostic) == 1
  {
    assert [o][..0] == [];
  }

  lemma OneFailure(r: ApplyResult, s: Settings, item: Item, limit: int, d: string, c: SystemErrorCode, f: bool)
    requires Summarises(r, s, [item], limit) && VerdictOf(s, item) == Failed(d, c, f)
    ensures r.summary.created == 0 && r.summary.updated == 0 && r.summary.failed == 1 && r.fatalError == f
    ensures Get(r.summary.errorStats, d) == 1 && Elems(r.allCodes) == {c}
  {
    FailureAlone(s, item, d, c, f);
    OneOccurrence(OutcomeOf(item, d));
    assert item in [item];
    assert Get(r.summary.errorStats, d) == Occurrences(Failures(s, [item]), d);
  }

  lemma ConflictFails(s: Settings, item: Item)
    requires s.adapterConfigured && HasSinkEntries(s.catalog) && item.answer == Refused(Some(CONFLICT))
    ensures VerdictOf(s, item) == Failed(MapSystemCode(Some(CONFLICT)), CONFLICT, false)
  {
    RefusalKeepsCode(s.catalog, Some(CONFLICT));
  }

  // One create that the target refuses with CONFLICT: it is counted as failed under the
  // sink's code, and the exit code is 1.
  lemma RefusedCreateFails(r: ApplyResult, s: Settings, item: Item, limit: int)
    requires Summarises(r, s, [item], limit) && s.adapterConfigured && HasSinkEntries(s.catalog)
    requires item.op == "create" && item.answer == Refused(Some(CONFLICT))
    ensures r.summary.created == 0 && r.summary.failed == 1 && !r.fatalError
    ensures Get(r.summary.errorStats, "SINK_CONFLICT") == 1 && Elems(r.allCodes) == {CONFLICT}
    ensures ExitCodeOf(Elems(r.allCodes)) == 1
  {
    ConflictFails(s, item);
    OneFailure(r, s, item, limit, MapSystemCode(Some(CONFLICT)), CONFLICT, false);
    DefaultExitCode(Elems(r.allCodes));
  }

  lemma {:induction false} EveryItemCounted(s: Settings, items: seq<Item>)
    requires NoneAborts(s, items)
    ensures AppliedWith(s, items, CREATE) + AppliedWith(s, items, UPDATE) + |Failures(s, items)| <= |items|
    ensures AppliedWith(s, items, CREATE) + AppliedWith(s, items, UPDATE) + |Failures(s, items)| == |items|
      <==> forall item :: item in items && VerdictOf(s, item).Applied? ==> item.op == CREATE || item.op == UPDATE
  {
    if items == [] {
    } else {
      var front := items[..|items| - 1];
      assert items == front + [Last(items)];
      assert forall x :: x in items <==> x in front || x == Last(items);
      EveryItemCounted(s, front);
    }
  }

  // Created, updated and failed add up to the items processed exactly when every applied
  // item is a create or an update.
  lemma ApplyAccounting(r: ApplyResult, s: Settings, items: seq<Item>, limit: int)
    requires Summarises(r, s, items, limit) && NoneAborts(s, items)
    ensures r.summary.created + r.summary.updated + r.summary.failed == |items|
      <==> forall item :: item in items && VerdictOf(s, item).Applied? ==> item.op == CREATE || item.op == UPDATE
  {
    EveryItemCounted(s, items);
  }

  // The recorded outcomes are the first failures, and the flag says whether any is missing.
  lemma OutcomesAreFirstFailures(r: ApplyResult, s: Settings, items: seq<Item>, limit: int)
    requires Summarises(r, s, items, limit)
    ensures r.itemOutcomes <= Failures(s, items)
    ensures |r.itemOutcomes| == if limit <= 0 then 0 else if r.summary.failed <= limit then r.summary.failed else limit
    ensures r.outcomesTruncated <==> r.itemOutcomes != Failures(s, items)
  {}

  ghost predicate FailsWith(s: Settings, item: Item, c: SystemErrorCode) {
    VerdictOf(s, item).Failed? && VerdictOf(s, item).system == c
  }

  lemma {:induction false} FailureCodeSource(s: Settings, items: seq<Item>, c: SystemErrorCode)
    ensures c in FailureCodes(s, items) <==> exists item :: item in items && FailsWith(s, item, c)
  {
    if items == [] {
    } else {
      var front, last := items[..|items| - 1], Last(items);
      assert items == front + [last];
      FailureCodeSource(s, front, c);
      assert c in FailureCodes(s, items) <==> c in FailureCodes(s, front) || FailsWith(s, last, c);
      if item :| item in items && FailsWith(s, item, c) { assert item in front || item == last; }
    }
  }

  lemma CatalogNeverSaysOk(s: Settings, item: Item)
    requires s.catalog.NeverOk() && VerdictOf(s, item).Failed?
    ensures VerdictOf(s, item).system != OK
  {
    var c := VerdictOf(s, item).diagnostic;
    assert s.catalog.Classify(c) == Some(VerdictOf(s, item).system);
    if c in s.catalog.entries { assert s.catalog.entries[c] in s.catalog.entries.Values; }
  }

  // The exit code is 0 exactly when nothing failed, or when every failure is classified
  // OK or UNKNOWN_CODE and at least one of them OK.
  lemma ExitZeroIff(r: ApplyResult, s: Settings, items: seq<Item>, limit: int)
    requires Summarises(r, s, items, limit)
    ensures ExitCodeOf(Elems(r.allCodes)) == 0 <==>
      r.summary.failed == 0 || FailureCodes(s, items) == {OK} || FailureCodes(s, items) == {OK, UNKNOWN_CODE}
    ensures s.catalog.NeverOk() ==> (ExitCodeOf(Elems(r.allCodes)) == 0 <==> r.summary.failed == 0)
  {
    var codes := FailureCodes(s, items);
    CodesOfFailures(s, items);
    DefaultExitCode(Elems(r.allCodes));
    if r.summary.failed > 0 && s.catalog.NeverOk() && OK in codes {
      FailureCodeSource(s, items, OK);
      var item :| item in items && FailsWith(s, item, OK);
      CatalogNeverSaysOk(s, item);
      assert false;
    }
  }

  // The command's own result holds the codes of the apply result, so the main code of a
  // summary is also the command's.
  method CommandResultOf(r: ApplyResult) returns (result: CommandResult)
    ensures fresh(result) && result.systemCodes == Elems(r.allCodes) && result.diagnostics == []
    ensures result.ExitCode(None, None) == ExitCodeOf(Elems(r.allCodes))
    ensures forall s, items, limit :: Summarises(r, s, items, limit) ==> result.PrimaryCode(None) == r.primaryCode
  {
    result := new CommandResult();
    for i := 0 to |r.allCodes|
      invariant fresh(result) && result.systemCodes == Elems(r.allCodes[..i]) && result.diagnostics == []
    {
      assert r.allCodes[..i + 1] == r.allCodes[..i] + [r.allCodes[i]];
      result.AddCode(r.allCodes[i]);
    }
    assert r.allCodes[..|r.allCodes|] == r.allCodes;
  }

  // A fatal item makes the exit code 2, whatever else failed.
  lemma FatalMeansExitTwo(r: ApplyResult, s: Settings, items: seq<Item>, limit: int)
    requires Summarises(r, s, items, limit) && r.fatalError
    ensures ExitCodeOf(Elems(r.allCodes)) == 2 && DEFAULT_STOP.IsFatal(r.primaryCode)
  {
    var item :| item in items && VerdictOf(s, item).Failed? && VerdictOf(s, item).fatal;
    var c := VerdictOf(s, item).system;
    FatalIsFatal(s, item);
    assert FailsWith(s, item, c);
    FailureCodeSource(s, items, c);
    CodesOfFailures(s, items);
    var codes := FailureCodes(s, items);
    assert c in codes * DEFAULT_STOP.fatal;
    PrimaryCodeMeans(codes, DEFAULT_STOP);
    DefaultExitCode(codes);
  }

  lemma FatalIsFatal(s: Settings, item: Item)
    requires VerdictOf(s, item).Failed? && VerdictOf(s, item).fatal
    ensures DEFAULT_STOP.IsFatal(VerdictOf(s, item).system)
  {}
}
