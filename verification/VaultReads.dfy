// What the SQLite store's lookup by match key reads after a run of puts and startup
// checks: the newest row of any run.
// Source: connector/infra/secrets/sqlite/repository.py and
// connector/domain/secrets/secret_vault_write_service.py
module VaultReads {
  import opened Basics
  import opened VaultCrypto
  import opened VaultStore
  import opened VaultServices
  import opened VaultRuns

  // ----- what a run of puts writes, told by the requests alone ---------------------------

  // The value a put leaves in a field: a later entry for the field replaces an earlier one.
  ghost function FieldValue(q: PutRequest, n: nat, field: string): Option<string>
    requires n <= |q.secrets|
  {
    if n == 0 then None
    else if q.secrets[n - 1].0 == field then Some(q.secrets[n - 1].1)
    else FieldValue(q, n - 1, field)
  }

  ghost predicate Touches(q: PutRequest, n: nat, s: Scope)
    requires n <= |q.secrets|
  {
    s == q.ScopeOf(s.field) && FieldValue(q, n, s.field).Some?
  }

  // The stamps a put leaves, all of them its own time.
  ghost function StampsOf(q: PutRequest, n: nat): map<Scope, int>
    requires n <= |q.secrets|
  {
    map s | s in Writes(q, n) :: q.now
  }

  // The time of the last successful put into each scope.
  ghost function Stamps(from: Start, ops: seq<Op>, cfg: Settings): map<Scope, int> {
    if ops == [] then from.stamps
    else
      var front, op := ops[..|ops| - 1], Last(ops);
      if Succeeds(Run(from.store, front, cfg), op, cfg) then
        Stamps(from, front, cfg) + StampsOf(op.q, |op.q.secrets|)
      else Stamps(from, front, cfg)
  }

  // The last successful put of a secret, in whatever run.
  datatype LastPut = LastPut(scope: Scope, plaintext: string, now: int)

  ghost function LastPutOf(from: Start, ops: seq<Op>, cfg: Settings, dataset: string, field: string, matchKey: string)
    : Option<LastPut>
  {
    if ops == [] then None
    else
      var front, op := ops[..|ops| - 1], Last(ops);
      if Succeeds(Run(from.store, front, cfg), op, cfg) && op.q.dataset == dataset && op.q.matchKey == matchKey
        && FieldValue(op.q, |op.q.secrets|, field).Some?
      then Some(LastPut(op.q.ScopeOf(field), FieldValue(op.q, |op.q.secrets|, field).value, op.q.now))
      else LastPutOf(from, front, cfg, dataset, field, matchKey)
  }

  lemma {:induction false} WritesMeans(q: PutRequest, n: nat, s: Scope)
    requires n <= |q.secrets|
    ensures s in Writes(q, n) <==> Touches(q, n, s)
    ensures s in Writes(q, n) ==> Some(Writes(q, n)[s]) == FieldValue(q, n, s.field)
  {
    if n == 0 {
    } else {
      WritesMeans(q, n - 1, s);
    }
  }

  // ----- the store carries the stamps ----------------------------------------------------

  lemma OneWriteStamped(st: State, stamps: map<Scope, int>, scope: Scope, row: SecretRow)
    requires Stamped(st, stamps)
    ensures Stamped(WithSecret(st, scope, row), stamps[scope := row.updatedAt])
  {}

  lemma {:induction false} WritesStamped(st: State, stamps: map<Scope, int>, q: PutRequest, a: Acquired,
      keyVersion: string, algo: string, n: nat)
    requires n <= |q.secrets| && Stamped(st, stamps)
    ensures Stamped(WriteSecrets(st, q, a, keyVersion, algo, n), stamps + StampsOf(q, n))
  {
    if n == 0 {
      assert stamps + StampsOf(q, 0) == stamps;
    } else {
      WritesStamped(st, stamps, q, a, keyVersion, algo, n - 1);
      var scope := q.ScopeOf(q.secrets[n - 1].0);
      OneWriteStamped(WriteSecrets(st, q, a, keyVersion, algo, n - 1), stamps + StampsOf(q, n - 1), scope,
        q.RowOf(n - 1, a, keyVersion, algo));
      NextStamp(stamps, q, n);
    }
  }

  lemma NextStamp(stamps: map<Scope, int>, q: PutRequest, n: nat)
    requires 0 < n <= |q.secrets|
    ensures stamps + StampsOf(q, n) == (stamps + StampsOf(q, n - 1))[q.ScopeOf(q.secrets[n - 1].0) := q.now]
  {}

  lemma {:induction false} RunStamped(from: Start, ops: seq<Op>, cfg: Settings)
    requires Stamped(from.store, from.stamps)
    ensures Stamped(Run(from.store, ops, cfg), Stamps(from, ops, cfg))
  {
    if ops == [] {
    } else {
      var front, op := ops[..|ops| - 1], Last(ops);
      RunStamped(from, front, cfg);
      StepStamped(Run(from.store, front, cfg), Stamps(from, front, cfg), op, cfg);
    }
  }

  lemma StepStamped(st: State, stamps: map<Scope, int>, op: Op, cfg: Settings)
    requires Stamped(st, stamps)
    ensures Stamped(Step(st, op, cfg),
      if Succeeds(st, op, cfg) then stamps + StampsOf(op.q, |op.q.secrets|) else stamps)
  {
    if Succeeds(st, op, cfg) {
      var q, p := op.q, op.q.provider;
      if q.secrets == [] {
        assert stamps + StampsOf(q, 0) == stamps;
      } else {
        var a := Acquire(st, p.active, p.keys, cfg.wrapAlgo, q.seed, op.budget).value;
        WritesStamped(AfterAcquire(st, a), stamps, q, a, p.active.version, cfg.cipherAlgo, |q.secrets|);
      }
    }
  }

  // ----- the last put of a secret and the other rows of it -------------------------------

  // A successful put of the secret.
  ghost predicate PutsAt(from: Start, ops: seq<Op>, cfg: Settings, dataset: string, field: string, matchKey: string,
      i: int)
  {
    && 0 <= i < |ops| && Succeeds(Run(from.store, ops[..i], cfg), ops[i], cfg)
    && PutsSecret(ops[i].q, dataset, field, matchKey)
  }

  ghost predicate PutsSecret(q: PutRequest, dataset: string, field: string, matchKey: string) {
    q.dataset == dataset && q.matchKey == matchKey && FieldValue(q, |q.secrets|, field).Some?
  }

  lemma PutsIffTouches(q: PutRequest, dataset: string, field: string, matchKey: string, s: Scope)
    requires IsOf(s, dataset, field, matchKey)
    ensures s in Writes(q, |q.secrets|) <==> PutsSecret(q, dataset, field, matchKey) && s == q.ScopeOf(field)
    ensures s in Writes(q, |q.secrets|) ==> Some(Writes(q, |q.secrets|)[s]) == FieldValue(q, |q.secrets|, field)
  {
    WritesMeans(q, |q.secrets|, s);
  }

  // The last put is what the ledger and the stamps say of its scope.
  lemma {:induction false} LastPutRecorded(from: Start, ops: seq<Op>, cfg: Settings, dataset: string, field: string,
      matchKey: string)
    requires LastPutOf(from, ops, cfg, dataset, field, matchKey).Some?
    ensures
      var e := LastPutOf(from, ops, cfg, dataset, field, matchKey).value;
      && IsOf(e.scope, dataset, field, matchKey)
      && e.scope in Written(from, ops, cfg) && Written(from, ops, cfg)[e.scope] == e.plaintext
      && e.scope in Stamps(from, ops, cfg) && Stamps(from, ops, cfg)[e.scope] == e.now
  {
    var front, op := ops[..|ops| - 1], Last(ops);
    var wrote := Succeeds(Run(from.store, front, cfg), op, cfg);
    if wrote && PutsSecret(op.q, dataset, field, matchKey) {
      PutsIffTouches(op.q, dataset, field, matchKey, op.q.ScopeOf(field));
    } else {
      LastPutRecorded(from, front, cfg, dataset, field, matchKey);
      var e := LastPutOf(from, front, cfg, dataset, field, matchKey).value;
      if wrote { PutsIffTouches(op.q, dataset, field, matchKey, e.scope); }
    }
  }

  // Every successful put of the secret has a later clock than those before it, and than
  // what the store started with; failed puts and other secrets may have any.
  ghost predicate ClocksIncrease(from: Start, ops: seq<Op>, cfg: Settings, dataset: string, field: string,
      matchKey: string)
  {
    forall j :: PutsAt(from, ops, cfg, dataset, field, matchKey, j) ==>
      && (forall i :: 0 <= i < j && PutsAt(from, ops, cfg, dataset, field, matchKey, i) ==>
            ops[i].q.now < ops[j].q.now)
      && (forall s :: s in from.stamps && IsOf(s, dataset, field, matchKey) ==> from.stamps[s] < ops[j].q.now)
  }

  lemma PutsAtFront(from: Start, ops: seq<Op>, cfg: Settings, dataset: string, field: string, matchKey: string, i: int)
    requires 0 <= i < |ops| - 1
    ensures PutsAt(from, ops, cfg, dataset, field, matchKey, i)
      <==> PutsAt(from, ops[..|ops| - 1], cfg, dataset, field, matchKey, i)
  {
    assert ops[..|ops| - 1][..i] == ops[..i];
  }

  // A stamp of the secret is the store's own, or the clock of a put of it.
  lemma {:induction false} StampsAreClocks(from: Start, ops: seq<Op>, cfg: Settings, dataset: string, field: string,
      matchKey: string, s: Scope)
    requires s in Stamps(from, ops, cfg) && IsOf(s, dataset, field, matchKey)
    ensures
      || (s in from.stamps && Stamps(from, ops, cfg)[s] == from.stamps[s])
      || exists i :: PutsAt(from, ops, cfg, dataset, field, matchKey, i) && ops[i].q.now == Stamps(from, ops, cfg)[s]
  {
    if ops == [] {
    } else {
      var front, op := ops[..|ops| - 1], Last(ops);
      if Succeeds(Run(from.store, front, cfg), op, cfg) && s in Writes(op.q, |op.q.secrets|) {
        PutsIffTouches(op.q, dataset, field, matchKey, s);
        assert PutsAt(from, ops, cfg, dataset, field, matchKey, |front|);
      } else {
        StampsAreClocks(from, front, cfg, dataset, field, matchKey, s);
        var now := Stamps(from, front, cfg)[s];
        if i :| PutsAt(from, front, cfg, dataset, field, matchKey, i) && front[i].q.now == now {
          PutsAtFront(from, ops, cfg, dataset, field, matchKey, i);
        }
      }
    }
  }

  lemma {:induction false} LastPutNewest(from: Start, ops: seq<Op>, cfg: Settings, dataset: string, field: string,
      matchKey: string, t: Scope)
    requires ClocksIncrease(from, ops, cfg, dataset, field, matchKey)
    requires LastPutOf(from, ops, cfg, dataset, field, matchKey).Some?
    requires t in Stamps(from, ops, cfg) && IsOf(t, dataset, field, matchKey)
    ensures var e := LastPutOf(from, ops, cfg, dataset, field, matchKey).value;
      t != e.scope ==> Stamps(from, ops, cfg)[t] < e.now
  {
    var front, op := ops[..|ops| - 1], Last(ops);
    var e := LastPutOf(from, ops, cfg, dataset, field, matchKey).value;
    var wrote := Succeeds(Run(from.store, front, cfg), op, cfg);
    if t != e.scope {
      if wrote { PutsIffTouches(op.q, dataset, field, matchKey, t); }
      if wrote && PutsSecret(op.q, dataset, field, matchKey) {
        assert t in Stamps(from, front, cfg);
        LaterThanBefore(from, ops, cfg, dataset, field, matchKey, t);
      } else {
        FrontIncreases(from, ops, cfg, dataset, field, matchKey);
        LastPutNewest(from, front, cfg, dataset, field, matchKey, t);
      }
    }
  }

  lemma FrontIncreases(from: Start, ops: seq<Op>, cfg: Settings, dataset: string, field: string, matchKey: string)
    requires ops != [] && ClocksIncrease(from, ops, cfg, dataset, field, matchKey)
    ensures ClocksIncrease(from, ops[..|ops| - 1], cfg, dataset, field, matchKey)
  {
    forall i | 0 <= i < |ops| - 1
      ensures PutsAt(from, ops, cfg, dataset, field, matchKey, i)
        <==> PutsAt(from, ops[..|ops| - 1], cfg, dataset, field, matchKey, i)
    {
      PutsAtFront(from, ops, cfg, dataset, field, matchKey, i);
    }
  }

  lemma LaterThanBefore(from: Start, ops: seq<Op>, cfg: Settings, dataset: string, field: string, matchKey: string,
      t: Scope)
    requires ops != [] && ClocksIncrease(from, ops, cfg, dataset, field, matchKey)
    requires PutsAt(from, ops, cfg, dataset, field, matchKey, |ops| - 1)
    requires t in Stamps(from, ops[..|ops| - 1], cfg) && IsOf(t, dataset, field, matchKey)
    ensures Stamps(from, ops[..|ops| - 1], cfg)[t] < Last(ops).q.now
  {
    var front := ops[..|ops| - 1];
    StampsAreClocks(from, front, cfg, dataset, field, matchKey, t);
    if i :| PutsAt(from, front, cfg, dataset, field, matchKey, i) && front[i].q.now == Stamps(from, front, cfg)[t] {
      PutsAtFront(from, ops, cfg, dataset, field, matchKey, i);
    }
  }

  // ----- a secret that is not put ----------------------------------------------------------

  ghost predicate SameAt(a: State, b: State, s: Scope) {
    (s in a.secrets <==> s in b.secrets) && (s in a.secrets ==> a.secrets[s] == b.secrets[s])
  }

  lemma {:induction false} WritesElsewhere(st: State, q: PutRequest, a: Acquired, keyVersion: string, algo: string,
      n: nat, s: Scope)
    requires n <= |q.secrets| && s !in Writes(q, n)
    ensures SameAt(WriteSecrets(st, q, a, keyVersion, algo, n), st, s)
  {
    if n == 0 {
    } else {
      WritesElsewhere(st, q, a, keyVersion, algo, n - 1, s);
    }
  }

  lemma StepElsewhere(st: State, op: Op, cfg: Settings, s: Scope)
    requires Succeeds(st, op, cfg) ==> s !in Writes(op.q, |op.q.secrets|)
    ensures SameAt(Step(st, op, cfg), st, s)
  {
    if Succeeds(st, op, cfg) && op.q.secrets != [] {
      var q, p := op.q, op.q.provider;
      var a := Acquire(st, p.active, p.keys, cfg.wrapAlgo, q.seed, op.budget).value;
      WritesElsewhere(AfterAcquire(st, a), q, a, p.active.version, cfg.cipherAlgo, |q.secrets|, s);
    }
  }

  lemma {:induction false} RunElsewhere(from: Start, ops: seq<Op>, cfg: Settings, dataset: string, field: string,
      matchKey: string, s: Scope)
    requires LastPutOf(from, ops, cfg, dataset, field, matchKey).None? && IsOf(s, dataset, field, matchKey)
    ensures SameAt(Run(from.store, ops, cfg), from.store, s)
  {
    if ops == [] {
    } else {
      var front, op := ops[..|ops| - 1], Last(ops);
      RunElsewhere(from, front, cfg, dataset, field, matchKey, s);
      if op.Put? { PutsIffTouches(op.q, dataset, field, matchKey, s); }
      StepElsewhere(Run(from.store, front, cfg), op, cfg, s);
    }
  }

  // ----- what the lookup by match key reads ----------------------------------------------

  lemma RowsOf(st: State, dataset: string, field: string, matchKey: string, s: Scope)
    requires RowsIdentified(st)
    ensures s in KeyRows(st, dataset, field, matchKey) <==> s in st.secrets && IsOf(s, dataset, field, matchKey)
  {
    FallbackFindsNothing(st, dataset, field, matchKey);
  }

  // The first put under `t` is the first put under `s`, or earlier.
  ghost predicate BornNoLater(births: seq<Birth>, t: Scope, s: Scope) {
    exists i, j :: 0 <= i <= j < |births| && births[i].scope == t && births[j].scope == s
  }

  // `t` does not come before `s`: its last put was earlier, or at the same time and its
  // first put no later.
  ghost predicate NotBefore(stamps: map<Scope, int>, births: seq<Birth>, s: Scope, t: Scope)
    requires s in stamps && t in stamps
  {
    stamps[t] < stamps[s] || (stamps[t] == stamps[s] && BornNoLater(births, t, s))
  }

  lemma OlderIffBornNoLater(st: State, births: seq<Birth>, t: Scope, s: Scope)
    requires Numbered(st, births) && t in st.secrets && s in st.secrets
    ensures BornNoLater(births, t, s) <==> st.secrets[t].id <= st.secrets[s].id
  {
    var i, j := st.secrets[t].id, st.secrets[s].id;
    assert births[i].scope == t && births[j].scope == s;
  }

  lemma FirstRowIff(st: State, stamps: map<Scope, int>, births: seq<Birth>, dataset: string, field: string,
      matchKey: string, s: Scope, r: Option<SecretRow>)
    requires RowsIdentified(st) && Stamped(st, stamps) && Numbered(st, births)
    requires IsCrossRun(st, dataset, field, matchKey, r) && s in stamps && IsOf(s, dataset, field, matchKey)
    ensures r == Some(st.secrets[s]) <==>
      forall t :: t in stamps && IsOf(t, dataset, field, matchKey) ==> NotBefore(stamps, births, s, t)
  {
    var rows := KeyRows(st, dataset, field, matchKey);
    forall t ensures t in rows <==> t in stamps && IsOf(t, dataset, field, matchKey) {
      RowsOf(st, dataset, field, matchKey, t);
    }
    assert s in rows;
    if NewestOf(st, rows, s) { NewestUnique(st, rows, s, r); }
    forall t | t in rows ensures NotBefore(stamps, births, s, t) <==> NotNewer(st.secrets[t], st.secrets[s]) {
      OlderIffBornNoLater(st, births, t, s);
    }
  }

  // The lookup gives the row of the secret's last put exactly when under no other run it
  // was put later, or at the same time after a later first put: a tied clock favours
  // the run that came in last.
  lemma ReadsLastPutIff(from: Start, wrappers: seq<MasterKey>, ops: seq<Op>, cfg: Settings,
      dataset: string, field: string, matchKey: string, r: Option<SecretRow>)
    requires Known(from, wrappers) && FreshSeeds(from.store, ops, cfg)
    requires IsCrossRun(Run(from.store, ops, cfg), dataset, field, matchKey, r)
    requires LastPutOf(from, ops, cfg, dataset, field, matchKey).Some?
    ensures
      var st, s := Run(from.store, ops, cfg), LastPutOf(from, ops, cfg, dataset, field, matchKey).value.scope;
      var stamps, births := Stamps(from, ops, cfg), Births(from, ops, cfg);
      s in st.secrets && s in stamps
      && (r == Some(st.secrets[s]) <==>
          forall t :: t in stamps && IsOf(t, dataset, field, matchKey) ==> NotBefore(stamps, births, s, t))
  {
    AnyRunHolds(from, wrappers, ops, cfg);
    RunStamped(from, ops, cfg);
    RunNumbered(from, ops, cfg);
    LastPutRecorded(from, ops, cfg, dataset, field, matchKey);
    var s := LastPutOf(from, ops, cfg, dataset, field, matchKey).value.scope;
    FirstRowIff(Run(from.store, ops, cfg), Stamps(from, ops, cfg), Births(from, ops, cfg), dataset, field, matchKey,
      s, r);
  }

  // With clocks that strictly increase, a reader whose ring opens the stored data keys
  // gets the plaintext last put for dataset, field and match key, whatever the run; when
  // it was not put, the lookup finds what it found in the store at the start.
  lemma SqliteReadsNewest(from: Start, wrappers: seq<MasterKey>, ops: seq<Op>, cfg: Settings, active: MasterKey,
      ring: seq<MasterKey>, dataset: string, field: string, matchKey: string, r: Option<SecretRow>)
    requires Known(from, wrappers) && FreshSeeds(from.store, ops, cfg)
    requires RingOpens(Run(from.store, ops, cfg), ring)
    requires ClocksIncrease(from, ops, cfg, dataset, field, matchKey)
    requires IsCrossRun(Run(from.store, ops, cfg), dataset, field, matchKey, r)
    ensures match LastPutOf(from, ops, cfg, dataset, field, matchKey)
      case None => IsCrossRun(from.store, dataset, field, matchKey, r)
      case Some(e) => ReadRow(Run(from.store, ops, cfg), Unlocked(active, ring), r) == Ok(Some(e.plaintext))
  {
    AnyRunHolds(from, wrappers, ops, cfg);
    match LastPutOf(from, ops, cfg, dataset, field, matchKey)
    case None =>
      forall s | IsOf(s, dataset, field, matchKey) ensures SameAt(Run(from.store, ops, cfg), from.store, s) {
        RunElsewhere(from, ops, cfg, dataset, field, matchKey, s);
      }
      SameLookup(Run(from.store, ops, cfg), from.store, dataset, field, matchKey, r);
    case Some(e) =>
      LastPutRecorded(from, ops, cfg, dataset, field, matchKey);
      LastPutFound(from, wrappers, ops, cfg, dataset, field, matchKey, r);
      FoundRowReadsIff(Run(from.store, ops, cfg), wrappers + Actives(ops), Written(from, ops, cfg), active, ring,
        e.scope);
  }

  lemma SameLookup(a: State, b: State, dataset: string, field: string, matchKey: string, r: Option<SecretRow>)
    requires RowsIdentified(a) && RowsIdentified(b) && IsCrossRun(a, dataset, field, matchKey, r)
    requires forall s :: IsOf(s, dataset, field, matchKey) ==> SameAt(a, b, s)
    ensures IsCrossRun(b, dataset, field, matchKey, r)
  {
    FallbackFindsNothing(a, dataset, field, matchKey);
    FallbackFindsNothing(b, dataset, field, matchKey);
    var rows := KeyRows(a, dataset, field, matchKey);
    forall s ensures s in rows <==> s in KeyRows(b, dataset, field, matchKey) {
      RowsOf(a, dataset, field, matchKey, s);
      RowsOf(b, dataset, field, matchKey, s);
      if IsOf(s, dataset, field, matchKey) { assert SameAt(a, b, s); }
    }
    assert rows == KeyRows(b, dataset, field, matchKey);
    forall s | s in rows ensures a.secrets[s] == b.secrets[s] {
      RowsOf(a, dataset, field, matchKey, s);
      assert SameAt(a, b, s);
    }
    if r.Some? {
      var s :| NewestOf(a, rows, s) && r.value == a.secrets[s];
      assert NewestOf(b, rows, s);
    }
  }

  lemma LastPutFound(from: Start, wrappers: seq<MasterKey>, ops: seq<Op>, cfg: Settings,
      dataset: string, field: string, matchKey: string, r: Option<SecretRow>)
    requires Known(from, wrappers) && FreshSeeds(from.store, ops, cfg)
    requires ClocksIncrease(from, ops, cfg, dataset, field, matchKey)
    requires IsCrossRun(Run(from.store, ops, cfg), dataset, field, matchKey, r)
    requires LastPutOf(from, ops, cfg, dataset, field, matchKey).Some?
    ensures
      var st, s := Run(from.store, ops, cfg), LastPutOf(from, ops, cfg, dataset, field, matchKey).value.scope;
      s in st.secrets && r == Some(st.secrets[s])
  {
    ReadsLastPutIff(from, wrappers, ops, cfg, dataset, field, matchKey, r);
    LastPutRecorded(from, ops, cfg, dataset, field, matchKey);
    RunNumbered(from, ops, cfg);
    RunStamped(from, ops, cfg);
    var s := LastPutOf(from, ops, cfg, dataset, field, matchKey).value.scope;
    forall t | t in Stamps(from, ops, cfg) && IsOf(t, dataset, field, matchKey)
      ensures NotBefore(Stamps(from, ops, cfg), Births(from, ops, cfg), s, t)
    {
      LastPutNewest(from, ops, cfg, dataset, field, matchKey, t);
      if t == s { OlderIffBornNoLater(Run(from.store, ops, cfg), Births(from, ops, cfg), s, s); }
    }
  }

  // ----- where the lookups differ, and what a tied clock does ----------------------------

  const KEY := MasterKey("v1", Fernet(1))
  const CFG := Settings(FERNET_V1, FERNET_V1, "probe", "payload", false)

  // A put of one field under the key above, with room to write.
  function PutOne(run: Option<string>, plaintext: string, version: string): Op {
    Put(PutRequest("d", "k", [("f", plaintext)], run, 0, Unlocked(KEY, [KEY]), Seed(Dek(0), version)), 2)
  }

  // The key of the index under which such a put writes.
  function InRun(run: Option<string>): Scope {
    Scope("d", "f", Sha256("d", "f", "k"), RunSlot(run))
  }

  // What a run wrote, when, and in which order keys came in.
  datatype Trace = Trace(ledger: Ledger, stamps: map<Scope, int>, births: seq<Birth>)

  const BLANK := Trace(map[], map[], [])

  ghost function TraceOf(ops: seq<Op>): Trace {
    Trace(Written(NEW, ops, CFG), Stamps(NEW, ops, CFG), Births(NEW, ops, CFG))
  }

  ghost function After(t: Trace, run: Option<string>, plaintext: string): Trace {
    var s := InRun(run);
    Trace(t.ledger[s := plaintext], t.stamps[s := 0],
      if IsBorn(t.births, s) then t.births else t.births + [Birth(s, run)])
  }

  // Every attempt so far was under the key above and drew one of these versions.
  ghost predicate Ordinary(ops: seq<Op>, versions: set<string>) {
    FreshSeeds(EMPTY, ops, CFG) && RingCovers(ops, [KEY]) && Run(EMPTY, ops, CFG).deks.Keys <= versions
  }

  lemma KeyOpens(ops: seq<Op>)
    requires FreshSeeds(EMPTY, ops, CFG) && RingCovers(ops, [KEY])
    ensures RingOpens(Run(EMPTY, ops, CFG), [KEY]) && SoundRing([KEY])
  {
    RunHolds(NEW, ops, CFG, [KEY]);
    SoundRingOpensIff(Run(EMPTY, ops, CFG), [KEY]);
  }

  lemma PutOneWrites(run: Option<string>, plaintext: string, version: string)
    ensures var q := PutOne(run, plaintext, version).q;
      && Writes(q, 1) == map[InRun(run) := plaintext] && FieldValue(q, 1, "f") == Some(plaintext)
      && StampsOf(q, 1) == map[InRun(run) := 0]
  {
    assert Writes(PutOne(run, plaintext, version).q, 0) == map[];
  }

  lemma PutOneSucceeds(ops: seq<Op>, run: Option<string>, plaintext: string, version: string)
    requires FreshSeeds(EMPTY, ops, CFG) && RingCovers(ops, [KEY])
    ensures Succeeds(Run(EMPTY, ops, CFG), PutOne(run, plaintext, version), CFG)
  {
    RunHolds(NEW, ops, CFG, [KEY]);
    PutSucceeds(Run(EMPTY, ops, CFG), Written(NEW, ops, CFG), PutOne(run, plaintext, version).q, CFG, 2);
  }

  lemma PutOneDeks(st: State, run: Option<string>, plaintext: string, version: string)
    requires Succeeds(st, PutOne(run, plaintext, version), CFG)
    ensures Step(st, PutOne(run, plaintext, version), CFG).deks.Keys <= st.deks.Keys + {version}
  {
    var q := PutOne(run, plaintext, version).q;
    var a := Acquire(st, KEY, [KEY], FERNET_V1, q.seed, 2).value;
    WritesSurvive(AfterAcquire(st, a), q, a, "v1", FERNET_V1, 1);
  }

  lemma RunGrows(ops: seq<Op>, op: Op, versions: set<string>)
    requires Ordinary(ops, versions) && op.Seed().version !in versions && op.Provider() == Unlocked(KEY, [KEY])
    ensures FreshSeeds(EMPTY, ops + [op], CFG) && RingCovers(ops + [op], [KEY])
    ensures Run(EMPTY, ops + [op], CFG) == Step(Run(EMPTY, ops, CFG), op, CFG)
  {
    var all := ops + [op];
    assert all[..|all| - 1] == ops && Last(all) == op;
  }

  lemma TraceAfter(before: Trace, after: Trace, run: Option<string>, plaintext: string, version: string)
    requires var q := PutOne(run, plaintext, version).q;
      && after.ledger == before.ledger + Writes(q, 1) && after.stamps == before.stamps + StampsOf(q, 1)
      && after.births == BirthsWith(before.births, q, 1)
    ensures after == After(before, run, plaintext)
  {
    PutOneWrites(run, plaintext, version);
    assert BirthsWith(before.births, PutOne(run, plaintext, version).q, 0) == before.births;
  }

  // What one more successful put does to what is known of a run.
  lemma SuccessfulPut(ops: seq<Op>, op: Op, cfg: Settings, field: string)
    requires Succeeds(Run(EMPTY, ops, cfg), op, cfg) && FieldValue(op.q, |op.q.secrets|, field).Some?
    ensures
      var n, all := |op.q.secrets|, ops + [op];
      && Written(NEW, all, cfg) == Written(NEW, ops, cfg) + Writes(op.q, n)
      && Stamps(NEW, all, cfg) == Stamps(NEW, ops, cfg) + StampsOf(op.q, n)
      && Births(NEW, all, cfg) == BirthsWith(Births(NEW, ops, cfg), op.q, n)
      && LastPutOf(NEW, all, cfg, op.q.dataset, field, op.q.matchKey)
        == Some(LastPut(op.q.ScopeOf(field), FieldValue(op.q, n, field).value, op.q.now))
  {
    var all := ops + [op];
    assert all[..|all| - 1] == ops && Last(all) == op;
  }

  lemma TraceGrows(ops: seq<Op>, all: seq<Op>, run: Option<string>, plaintext: string, version: string)
    requires Succeeds(Run(EMPTY, ops, CFG), PutOne(run, plaintext, version), CFG)
    requires all == ops + [PutOne(run, plaintext, version)]
    ensures TraceOf(all) == After(TraceOf(ops), run, plaintext)
    ensures LastPutOf(NEW, all, CFG, "d", "f", "k") == Some(LastPut(InRun(run), plaintext, 0))
  {
    var op := PutOne(run, plaintext, version);
    PutOneWrites(run, plaintext, version);
    SuccessfulPut(ops, op, CFG, "f");
    TraceAfter(TraceOf(ops), TraceOf(all), run, plaintext, version);
  }

  lemma OneMorePut(ops: seq<Op>, all: seq<Op>, run: Option<string>, plaintext: string, version: string,
      versions: set<string>)
    requires Ordinary(ops, versions) && version !in versions && all == ops + [PutOne(run, plaintext, version)]
    ensures Ordinary(all, versions + {version}) && TraceOf(all) == After(TraceOf(ops), run, plaintext)
    ensures LastPutOf(NEW, all, CFG, "d", "f", "k") == Some(LastPut(InRun(run), plaintext, 0))
  {
    PutOneSucceeds(ops, run, plaintext, version);
    PutOneDeks(Run(EMPTY, ops, CFG), run, plaintext, version);
    RunGrows(ops, PutOne(run, plaintext, version), versions);
    TraceGrows(ops, all, run, plaintext, version);
  }

  lemma FirstPut(ops: seq<Op>, run: Option<string>, a: string, v: string)
    requires ops == [PutOne(run, a, v)]
    ensures Ordinary(ops, {v}) && TraceOf(ops) == After(BLANK, run, a)
    ensures LastPutOf(NEW, ops, CFG, "d", "f", "k") == Some(LastPut(InRun(run), a, 0))
  {
    assert Ordinary([], {}) && TraceOf([]) == BLANK;
    OneMorePut([], ops, run, a, v, {});
  }

  lemma TwoPuts(ops: seq<Op>, first: Option<string>, second: Option<string>, a: string, b: string, v: string, w: string)
    requires v != w && ops == [PutOne(first, a, v), PutOne(second, b, w)]
    ensures Ordinary(ops, {v, w}) && TraceOf(ops) == After(After(BLANK, first, a), second, b)
    ensures LastPutOf(NEW, ops, CFG, "d", "f", "k") == Some(LastPut(InRun(second), b, 0))
  {
    var one := [PutOne(first, a, v)];
    FirstPut(one, first, a, v);
    OneMorePut(one, ops, second, b, w, {v});
  }

  lemma ScopedRead(ops: seq<Op>, run: Option<string>)
    requires FreshSeeds(EMPTY, ops, CFG) && RingCovers(ops, [KEY])
    ensures var t := TraceOf(ops);
      ReadRow(Run(EMPTY, ops, CFG), Unlocked(KEY, [KEY]), RunScoped(Run(EMPTY, ops, CFG), "d", "f", "k", run))
      == Ok(ExactThenGlobal(t.ledger, t.births, "d", "f", "k", run))
  {
    NewKnown();
    KeyOpens(ops);
    RoundTrip(NEW, [], ops, CFG, KEY, [KEY], "d", "f", "k", run);
  }

  lemma KeyRead(ops: seq<Op>, r: Option<SecretRow>)
    requires FreshSeeds(EMPTY, ops, CFG) && RingCovers(ops, [KEY]) && ClocksIncrease(NEW, ops, CFG, "d", "f", "k")
    requires LastPutOf(NEW, ops, CFG, "d", "f", "k").Some? && IsCrossRun(Run(EMPTY, ops, CFG), "d", "f", "k", r)
    ensures ReadRow(Run(EMPTY, ops, CFG), Unlocked(KEY, [KEY]), r)
      == Ok(Some(LastPutOf(NEW, ops, CFG, "d", "f", "k").value.plaintext))
  {
    NewKnown();
    KeyOpens(ops);
    SqliteReadsNewest(NEW, [], ops, CFG, KEY, [KEY], "d", "f", "k", r);
  }

  lemma OnePutIncreases(ops: seq<Op>)
    requires |ops| == 1
    ensures ClocksIncrease(NEW, ops, CFG, "d", "f", "k")
  {}

  // One put bound to a run: the documented lookup without a run finds nothing, the
  // match key finds the secret.
  lemma RunIgnored(p: string, r: Option<SecretRow>)
    requires IsCrossRun(Run(EMPTY, [PutOne(Some("r1"), p, "dek1")], CFG), "d", "f", "k", r)
    ensures var st := Run(EMPTY, [PutOne(Some("r1"), p, "dek1")], CFG);
      && ReadRow(st, Unlocked(KEY, [KEY]), RunScoped(st, "d", "f", "k", None)) == Ok(None)
      && ReadRow(st, Unlocked(KEY, [KEY]), r) == Ok(Some(p))
  {
    var ops := [PutOne(Some("r1"), p, "dek1")];
    FirstPut(ops, Some("r1"), p, "dek1");
    assert After(BLANK, Some("r1"), p).births == [Birth(InRun(Some("r1")), Some("r1"))];
    assert InRun(Some("r1")).slot != "";
    ScopedRead(ops, None);
    OnePutIncreases(ops);
    KeyRead(ops, r);
  }

  lemma EmptyRunBorn(t: Trace, a: string, b: string)
    requires t == After(After(BLANK, Some(""), a), None, b)
    ensures ExactThenGlobal(t.ledger, t.births, "d", "f", "k", None) == None
    ensures ExactThenGlobal(t.ledger, t.births, "d", "f", "k", Some("")) == Some(b)
  {
    var one := After(BLANK, Some(""), a);
    assert one.births == [Birth(InRun(None), Some(""))];
    assert one.births[0].scope == InRun(None);
  }

  // After a put with an empty run id, a put without one goes into the same row: it
  // succeeds, and a read without a run does not find it.
  lemma EmptyRunHidesGlobal(ops: seq<Op>, a: string, b: string, v: string, w: string)
    requires v != w && ops == [PutOne(Some(""), a, v), PutOne(None, b, w)]
    ensures LastPutOf(NEW, ops, CFG, "d", "f", "k") == Some(LastPut(InRun(None), b, 0))
    ensures var st := Run(EMPTY, ops, CFG);
      && ReadRow(st, Unlocked(KEY, [KEY]), RunScoped(st, "d", "f", "k", None)) == Ok(None)
      && ReadRow(st, Unlocked(KEY, [KEY]), RunScoped(st, "d", "f", "k", Some(""))) == Ok(Some(b))
  {
    TwoPuts(ops, Some(""), None, a, b, v, w);
    EmptyRunBorn(TraceOf(ops), a, b);
    ScopedRead(ops, None);
    ScopedRead(ops, Some(""));
  }

  // Two keys put within one tick, the second one new when the first was there, and `b` in it.
  ghost predicate Tied(t: Trace, first: Scope, second: Scope, b: string) {
    && |t.births| == 2 && t.births[0].scope == first && t.births[1].scope == second
    && t.stamps.Keys == {first, second} && t.stamps[first] == t.stamps[second]
    && second in t.ledger && t.ledger[second] == b
  }

  lemma SecondRunTied(one: Trace, first: string, second: string, a: string, b: string)
    requires first != second && one == After(BLANK, Some(first), a)
    ensures Tied(After(one, Some(second), b), InRun(Some(first)), InRun(Some(second)), b)
  {
    assert one.births == [Birth(InRun(Some(first)), Some(first))];
    assert InRun(Some(second)).slot == second && !IsBorn(one.births, InRun(Some(second)));
  }

  lemma StaysTied(two: Trace, first: string, second: Scope, b: string, c: string)
    requires Tied(two, InRun(Some(first)), second, b) && second != InRun(Some(first)) && two.stamps[second] == 0
    ensures Tied(After(two, Some(first), c), InRun(Some(first)), second, b)
  {
    assert two.births[0].scope == InRun(Some(first));
  }

  lemma ThreePuts(ops: seq<Op>, first: string, second: string, a: string, b: string, c: string,
      v: string, w: string, x: string)
    requires first != second && v != w && x != v && x != w
    requires ops == [PutOne(Some(first), a, v), PutOne(Some(second), b, w), PutOne(Some(first), c, x)]
    ensures Ordinary(ops, {v, w, x}) && Tied(TraceOf(ops), InRun(Some(first)), InRun(Some(second)), b)
    ensures LastPutOf(NEW, ops, CFG, "d", "f", "k") == Some(LastPut(InRun(Some(first)), c, 0))
  {
    var two := [PutOne(Some(first), a, v), PutOne(Some(second), b, w)];
    TwoPuts(two, Some(first), Some(second), a, b, v, w);
    OneMorePut(two, ops, Some(first), c, x, {v, w});
    assert {v, w} + {x} == {v, w, x};
    SecondRunTied(After(BLANK, Some(first), a), first, second, a, b);
    StaysTied(TraceOf(two), first, InRun(Some(second)), b, c);
  }

  // Three puts within one tick, the first and the last in one run and the second in
  // another: the last wrote `c`, the lookup reads `b`, whose run came in second.
  lemma TiedClockReadsOlder(ops: seq<Op>, first: string, second: string, a: string, b: string, c: string,
      v: string, w: string, x: string, r: Option<SecretRow>)
    requires first != second && v != w && x != v && x != w
    requires ops == [PutOne(Some(first), a, v), PutOne(Some(second), b, w), PutOne(Some(first), c, x)]
    requires IsCrossRun(Run(EMPTY, ops, CFG), "d", "f", "k", r)
    ensures LastPutOf(NEW, ops, CFG, "d", "f", "k") == Some(LastPut(InRun(Some(first)), c, 0))
    ensures ReadRow(Run(EMPTY, ops, CFG), Unlocked(KEY, [KEY]), r) == Ok(Some(b))
  {
    ThreePuts(ops, first, second, a, b, c, v, w, x);
    TiedRunReads(ops, InRun(Some(first)), InRun(Some(second)), b, r);
  }

  lemma TiedRunReads(ops: seq<Op>, first: Scope, second: Scope, b: string, r: Option<SecretRow>)
    requires FreshSeeds(EMPTY, ops, CFG) && RingCovers(ops, [KEY]) && Tied(TraceOf(ops), first, second, b)
    requires IsOf(second, "d", "f", "k") && IsCrossRun(Run(EMPTY, ops, CFG), "d", "f", "k", r)
    ensures ReadRow(Run(EMPTY, ops, CFG), Unlocked(KEY, [KEY]), r) == Ok(Some(b))
  {
    RunHolds(NEW, ops, CFG, [KEY]);
    RunStamped(NEW, ops, CFG);
    RunNumbered(NEW, ops, CFG);
    KeyOpens(ops);
    SecondRowFound(Run(EMPTY, ops, CFG), TraceOf(ops), first, second, b, r);
    FoundRowReadsIff(Run(EMPTY, ops, CFG), [KEY], Written(NEW, ops, CFG), KEY, [KEY], second);
  }

  lemma SecondRowFound(st: State, t: Trace, first: Scope, second: Scope, b: string, r: Option<SecretRow>)
    requires RowsIdentified(st) && Stamped(st, t.stamps) && Numbered(st, t.births) && Tied(t, first, second, b)
    requires IsOf(second, "d", "f", "k") && IsCrossRun(st, "d", "f", "k", r)
    ensures second in st.secrets && r == Some(st.secrets[second])
  {
    assert BornNoLater(t.births, first, second) && BornNoLater(t.births, second, second);
    assert forall x :: x in t.stamps ==> NotBefore(t.stamps, t.births, second, x);
    FirstRowIff(st, t.stamps, t.births, "d", "f", "k", second, r);
  }
}
