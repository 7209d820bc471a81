// What holds over whole runs of the vault: any interleaving of puts and startup
// checks, each with its own keyring and its own storage failures.
// Source: connector/domain/secrets/secret_vault_write_service.py,
// secret_vault_read_service.py and vault_startup_guard.py
module VaultRuns {
  import opened Basics
  import opened VaultCrypto
  import opened VaultStore
  import opened VaultServices

  datatype Op = Put(q: PutRequest, budget: nat) | Guard(g: ReadyRequest, budget: nat)
  {
    function Provider(): VaultCrypto.Provider {
      if Put? then q.provider else g.provider
    }

    function Seed(): VaultServices.Seed {
      if Put? then q.seed else g.seed
    }
  }

  // The store after one operation, successful or not.
  ghost function Step(st: State, op: Op, cfg: Settings): State {
    match op
    case Put(q, budget) =>
      var outcome := PutOutcome(st, q, cfg, budget);
      if outcome.Ok? then outcome.value else st
    case Guard(g, budget) => EnsureReadyOutcome(st, g, cfg, budget).state
  }

  ghost function Run(st: State, ops: seq<Op>, cfg: Settings): State {
    if ops == [] then st else Step(Run(st, ops[..|ops| - 1], cfg), Last(ops), cfg)
  }

  // Every identifier drawn for a data key is new when it is drawn.
  ghost predicate FreshSeeds(st: State, ops: seq<Op>, cfg: Settings) {
    ops == [] ||
    (FreshSeeds(st, ops[..|ops| - 1], cfg) && Last(ops).Seed().version !in Run(st, ops[..|ops| - 1], cfg).deks)
  }

  // ----- a property kept by each kind of write is kept by a run ------------------------------

  lemma AcquireKeepsStore(st: State, active: MasterKey, keys: seq<MasterKey>, wrapAlgo: string, seed: Seed, budget: nat)
    requires StoreInv(st)
    ensures var r := Acquire(st, active, keys, wrapAlgo, seed, budget);
      r.Ok? ==> StoreInv(AfterAcquire(st, r.value)) && r.value.record.version in AfterAcquire(st, r.value).deks
  {
    if ActiveDek(st).None? {
      var wrapped := WrapDek(seed.dek, active.material, wrapAlgo);
      if wrapped.Ok? { DekKeepsStore(st, NewDek(seed, wrapped.value, wrapAlgo, active)); }
    } else {
      var v :| v in st.deks && st.deks[v].isActive && ActiveDek(st).value == st.deks[v];
    }
  }

  lemma {:induction false} WritesKeepStore(st: State, q: PutRequest, a: Acquired, keyVersion: string, algo: string,
      n: nat)
    requires StoreInv(st) && a.record.version in st.deks && n <= |q.secrets|
    ensures var after := WriteSecrets(st, q, a, keyVersion, algo, n);
      StoreInv(after) && after.deks == st.deks && after.probes == st.probes
  {
    if n == 0 {
    } else {
      WritesKeepStore(st, q, a, keyVersion, algo, n - 1);
      var before := WriteSecrets(st, q, a, keyVersion, algo, n - 1);
      SecretKeepsStore(before, q.ScopeOf(q.secrets[n - 1].0), q.RowOf(n - 1, a, keyVersion, algo));
    }
  }

  // One active data key at most, and no reference to a data key that is not stored.
  lemma StepKeepsStore(st: State, op: Op, cfg: Settings)
    requires StoreInv(st)
    ensures StoreInv(Step(st, op, cfg))
  {
    var p := op.Provider();
    if p.Unlocked? {
      AcquireKeepsStore(st, p.active, p.keys, cfg.wrapAlgo, op.Seed(), op.budget);
      var r := Acquire(st, p.active, p.keys, cfg.wrapAlgo, op.Seed(), op.budget);
      if r.Ok? {
        var keyed := AfterAcquire(st, r.value);
        match op
        case Put(q, _) => WritesKeepStore(keyed, q, r.value, p.active.version, cfg.cipherAlgo, |q.secrets|);
        case Guard(_, _) => ProbeKeepsStore(keyed, NewProbe(cfg, r.value, p.active));
      }
    }
  }

  lemma {:induction false} RunKeepsStore(st: State, ops: seq<Op>, cfg: Settings)
    requires StoreInv(st)
    ensures StoreInv(Run(st, ops, cfg))
  {
    if ops == [] {
    } else {
      RunKeepsStore(st, ops[..|ops| - 1], cfg);
      StepKeepsStore(Run(st, ops[..|ops| - 1], cfg), Last(ops), cfg);
    }
  }

  lemma EmptyStoreSound()
    ensures StoreInv(EMPTY)
  {}

  // ----- what the rows hold -------------------------------------------------------------------

  // A data key is wrapped under a key of the ring.
  ghost predicate DekUnder(record: DekRecord, ring: seq<MasterKey>) {
    record.wrapAlgo == FERNET_V1 && record.wrapped.WrapToken? && exists k ::
      k in ring && k.material == record.wrapped.under
  }

  ghost predicate RowSealed(st: State, row: SecretRow, plaintext: string) {
    && row.cipherAlgo == FERNET_V1 && row.dekVersion in st.deks && st.deks[row.dekVersion].wrapped.WrapToken?
    && row.ciphertext == Token(plaintext, st.deks[row.dekVersion].wrapped.dek)
  }

  // Plaintexts last written, by scope.
  type Ledger = map<Scope, string>

  // The store holds exactly the ledger, sealed under the ring.
  ghost predicate Holds(st: State, ring: seq<MasterKey>, ledger: Ledger) {
    && StoreInv(st)
    && (forall v {:trigger st.deks[v]} :: v in st.deks ==> DekUnder(st.deks[v], ring))
    && st.secrets.Keys == ledger.Keys
    && (forall s {:trigger st.secrets[s]} :: s in st.secrets ==> RowSealed(st, st.secrets[s], ledger[s]))
  }

  ghost function Writes(q: PutRequest, n: nat): Ledger
    requires n <= |q.secrets|
  {
    if n == 0 then map[] else Writes(q, n - 1)[q.ScopeOf(q.secrets[n - 1].0) := q.secrets[n - 1].1]
  }

  ghost function LedgerStep(st: State, ledger: Ledger, op: Op, cfg: Settings): Ledger {
    if op.Put? && PutOutcome(st, op.q, cfg, op.budget).Ok? then ledger + Writes(op.q, |op.q.secrets|) else ledger
  }

  // A store to start from, and what is known of it: what its keys hold, when they were
  // last put, and in which order they came in.
  datatype Start = Start(store: State, ledger: Ledger, stamps: map<Scope, int>, births: seq<Birth>)

  const NEW := Start(EMPTY, map[], map[], [])

  ghost predicate Known(from: Start, wrappers: seq<MasterKey>) {
    && Holds(from.store, wrappers, from.ledger) && Stamped(from.store, from.stamps)
    && Numbered(from.store, from.births)
  }

  lemma NewKnown()
    ensures Known(NEW, [])
  {
    EmptyStoreSound();
  }

  // Rows carry the time of the last put.
  ghost predicate Stamped(st: State, stamps: map<Scope, int>) {
    st.secrets.Keys == stamps.Keys
    && forall s {:trigger st.secrets[s]} :: s in st.secrets ==> st.secrets[s].updatedAt == stamps[s]
  }

  // What is written last in each scope after the successful puts of a run.
  ghost function Written(from: Start, ops: seq<Op>, cfg: Settings): Ledger {
    if ops == [] then from.ledger
    else LedgerStep(Run(from.store, ops[..|ops| - 1], cfg), Written(from, ops[..|ops| - 1], cfg), Last(ops), cfg)
  }

  // The acquired key is the one inside the stored record.
  ghost predicate AcquiredStored(st: State, a: Acquired) {
    a.record.version in st.deks && st.deks[a.record.version].wrapped.WrapToken?
      && st.deks[a.record.version].wrapped.dek == a.dek
  }

  lemma AcquireHolds(st: State, ring: seq<MasterKey>, ledger: Ledger, active: MasterKey, keys: seq<MasterKey>,
      wrapAlgo: string, seed: Seed, budget: nat)
    requires Holds(st, ring, ledger) && active in ring && seed.version !in st.deks
    ensures var r := Acquire(st, active, keys, wrapAlgo, seed, budget);
      r.Ok? ==> Holds(AfterAcquire(st, r.value), ring, ledger) && AcquiredStored(AfterAcquire(st, r.value), r.value)
  {
    AcquireKeepsStore(st, active, keys, wrapAlgo, seed, budget);
    var r := Acquire(st, active, keys, wrapAlgo, seed, budget);
    if r.Ok? {
      if r.value.wrote {
        NewDekHolds(st, ring, ledger, r.value.record);
      } else {
        var record := r.value.record;
        TryKeysOpenIff(Candidates(keys, record.wrapKeyVersion), record.wrapped, record.wrapAlgo);
        var v :| v in st.deks && st.deks[v].isActive && record == st.deks[v];
      }
    }
  }

  lemma NewDekHolds(st: State, ring: seq<MasterKey>, ledger: Ledger, dek: DekRecord)
    requires Holds(st, ring, ledger) && dek.isActive && dek.version !in st.deks && DekUnder(dek, ring)
    ensures Holds(WithDek(st, dek), ring, ledger)
  {
    DekKeepsStore(st, dek);
    var after := WithDek(st, dek);
    forall v | v in after.deks ensures DekUnder(after.deks[v], ring) {
      if v != dek.version { assert DekUnder(st.deks[v], ring); }
    }
    forall s | s in after.secrets ensures RowSealed(after, after.secrets[s], ledger[s]) {
      assert RowSealed(st, st.secrets[s], ledger[s]);
    }
  }

  lemma {:induction false} WritesHold(st: State, ring: seq<MasterKey>, ledger: Ledger, q: PutRequest, a: Acquired,
      keyVersion: string, n: nat)
    requires Holds(st, ring, ledger) && AcquiredStored(st, a) && n <= |q.secrets|
    ensures Holds(WriteSecrets(st, q, a, keyVersion, FERNET_V1, n), ring, ledger + Writes(q, n))
    ensures WriteSecrets(st, q, a, keyVersion, FERNET_V1, n).deks == st.deks
  {
    if n == 0 {
      assert ledger + Writes(q, 0) == ledger;
    } else {
      WritesHold(st, ring, ledger, q, a, keyVersion, n - 1);
      NextWriteHolds(WriteSecrets(st, q, a, keyVersion, FERNET_V1, n - 1), ring, ledger, q, a, keyVersion, n);
    }
  }

  lemma NextWriteHolds(before: State, ring: seq<MasterKey>, ledger: Ledger, q: PutRequest, a: Acquired,
      keyVersion: string, n: nat)
    requires 0 < n <= |q.secrets| && Holds(before, ring, ledger + Writes(q, n - 1)) && AcquiredStored(before, a)
    ensures Holds(WithSecret(before, q.ScopeOf(q.secrets[n - 1].0), q.RowOf(n - 1, a, keyVersion, FERNET_V1)), ring,
      ledger + Writes(q, n))
  {
    var row := q.RowOf(n - 1, a, keyVersion, FERNET_V1);
    assert RowSealed(before, row, q.secrets[n - 1].1);
    OneWriteHolds(before, ring, ledger + Writes(q, n - 1), q.ScopeOf(q.secrets[n - 1].0), row, q.secrets[n - 1].1);
    NextWrite(ledger, q, n);
  }

  lemma NextWrite(ledger: Ledger, q: PutRequest, n: nat)
    requires 0 < n <= |q.secrets|
    ensures ledger + Writes(q, n) == (ledger + Writes(q, n - 1))[q.ScopeOf(q.secrets[n - 1].0) := q.secrets[n - 1].1]
  {}

  lemma OneWriteHolds(st: State, ring: seq<MasterKey>, ledger: Ledger, scope: Scope, row: SecretRow, plaintext: string)
    requires Holds(st, ring, ledger) && RowSealed(st, row, plaintext)
    requires RowFits(scope, row)
    ensures Holds(WithSecret(st, scope, row), ring, ledger[scope := plaintext])
  {
    SecretKeepsStore(st, scope, row);
    var after := WithSecret(st, scope, row);
    forall s | s in after.secrets ensures RowSealed(after, after.secrets[s], ledger[scope := plaintext][s]) {
      if s != scope { assert RowSealed(st, st.secrets[s], ledger[s]); }
    }
  }

  lemma PutHolds(st: State, ring: seq<MasterKey>, ledger: Ledger, q: PutRequest, budget: nat, cfg: Settings)
    requires Holds(st, ring, ledger) && q.seed.version !in st.deks
      && (q.provider.Unlocked? ==> q.provider.active in ring)
    requires PutOutcome(st, q, cfg, budget).Ok?
    ensures Holds(PutOutcome(st, q, cfg, budget).value, ring, ledger + Writes(q, |q.secrets|))
  {
    if q.secrets == [] {
      assert ledger + Writes(q, 0) == ledger;
    } else {
      var p := q.provider;
      AcquireHolds(st, ring, ledger, p.active, p.keys, cfg.wrapAlgo, q.seed, budget);
      var a := Acquire(st, p.active, p.keys, cfg.wrapAlgo, q.seed, budget).value;
      WritesHold(AfterAcquire(st, a), ring, ledger, q, a, p.active.version, |q.secrets|);
    }
  }

  lemma GuardHolds(st: State, ring: seq<MasterKey>, ledger: Ledger, g: ReadyRequest, budget: nat, cfg: Settings)
    requires Holds(st, ring, ledger) && g.seed.version !in st.deks
      && (g.provider.Unlocked? ==> g.provider.active in ring)
    ensures Holds(EnsureReadyOutcome(st, g, cfg, budget).state, ring, ledger)
  {
    var p := g.provider;
    if p.Unlocked? {
      AcquireHolds(st, ring, ledger, p.active, p.keys, cfg.wrapAlgo, g.seed, budget);
      var r := Acquire(st, p.active, p.keys, cfg.wrapAlgo, g.seed, budget);
      if r.Ok? {
        assert AcquiredStored(AfterAcquire(st, r.value), r.value);
        ProbeHolds(AfterAcquire(st, r.value), ring, ledger, NewProbe(cfg, r.value, p.active));
      }
    }
  }

  lemma StepHolds(st: State, ring: seq<MasterKey>, ledger: Ledger, op: Op, cfg: Settings)
    requires Holds(st, ring, ledger) && op.Seed().version !in st.deks
    requires op.Provider().Unlocked? ==> op.Provider().active in ring
    ensures Holds(Step(st, op, cfg), ring, LedgerStep(st, ledger, op, cfg))
  {
    match op
    case Put(q, budget) => if PutOutcome(st, q, cfg, budget).Ok? { PutHolds(st, ring, ledger, q, budget, cfg); }
    case Guard(g, budget) => GuardHolds(st, ring, ledger, g, budget, cfg);
  }

  lemma ProbeHolds(st: State, ring: seq<MasterKey>, ledger: Ledger, probe: Probe)
    requires Holds(st, ring, ledger) && probe.dekVersion in st.deks
    ensures Holds(WithProbe(st, probe), ring, ledger)
  {
    ProbeKeepsStore(st, probe);
    var after := WithProbe(st, probe);
    forall s | s in after.secrets ensures RowSealed(after, after.secrets[s], ledger[s]) {
      assert RowSealed(st, st.secrets[s], ledger[s]);
    }
  }

  // The active key of every attempt is in the list.
  ghost predicate RingCovers(ops: seq<Op>, ring: seq<MasterKey>) {
    forall i :: 0 <= i < |ops| && ops[i].Provider().Unlocked? ==> ops[i].Provider().active in ring
  }

  lemma {:induction false} RunHolds(from: Start, ops: seq<Op>, cfg: Settings, ring: seq<MasterKey>)
    requires Holds(from.store, ring, from.ledger) && FreshSeeds(from.store, ops, cfg) && RingCovers(ops, ring)
    ensures Holds(Run(from.store, ops, cfg), ring, Written(from, ops, cfg))
  {
    if ops == [] {
    } else {
      var front := ops[..|ops| - 1];
      RunHolds(from, front, cfg, ring);
      StepHolds(Run(from.store, front, cfg), ring, Written(from, front, cfg), Last(ops), cfg);
    }
  }

  // The active keys of all attempts.
  ghost function Actives(ops: seq<Op>): seq<MasterKey> {
    if ops == [] then [] else
      Actives(ops[..|ops| - 1]) + if Last(ops).Provider().Unlocked? then [Last(ops).Provider().active] else []
  }

  lemma {:induction false} ActivesCover(ops: seq<Op>)
    ensures RingCovers(ops, Actives(ops))
  {
    if ops == [] {
    } else {
      var front := ops[..|ops| - 1];
      ActivesCover(front);
      forall i | 0 <= i < |ops| && ops[i].Provider().Unlocked? ensures ops[i].Provider().active in Actives(ops) {
        if i < |front| { assert front[i] == ops[i]; }
      }
    }
  }

  // More wrapping keys do no harm.
  lemma HoldsUnderMore(st: State, ring: seq<MasterKey>, more: seq<MasterKey>, ledger: Ledger)
    requires Holds(st, ring, ledger) && forall k :: k in ring ==> k in more
    ensures Holds(st, more, ledger)
  {
    forall v | v in st.deks ensures DekUnder(st.deks[v], more) { assert DekUnder(st.deks[v], ring); }
  }

  // Whatever keyrings the attempts came with.
  lemma AnyRunHolds(from: Start, wrappers: seq<MasterKey>, ops: seq<Op>, cfg: Settings)
    requires Holds(from.store, wrappers, from.ledger) && FreshSeeds(from.store, ops, cfg)
    ensures Holds(Run(from.store, ops, cfg), wrappers + Actives(ops), Written(from, ops, cfg))
  {
    ActivesCover(ops);
    HoldsUnderMore(from.store, wrappers, wrappers + Actives(ops), from.ledger);
    RunHolds(from, ops, cfg, wrappers + Actives(ops));
  }

  // ----- the order in which rows are created ---------------------------------------------------

  // A key of the index and the run of the first put under it.
  datatype Birth = Birth(scope: Scope, run: Option<string>)

  ghost predicate IsBorn(births: seq<Birth>, s: Scope) {
    exists i :: 0 <= i < |births| && births[i].scope == s
  }

  ghost function BirthsWith(births: seq<Birth>, q: PutRequest, n: nat): seq<Birth>
    requires n <= |q.secrets|
  {
    if n == 0 then births
    else
      var earlier, s := BirthsWith(births, q, n - 1), q.ScopeOf(q.secrets[n - 1].0);
      if IsBorn(earlier, s) then earlier else earlier + [Birth(s, q.run)]
  }

  ghost predicate Succeeds(st: State, op: Op, cfg: Settings) {
    op.Put? && PutOutcome(st, op.q, cfg, op.budget).Ok?
  }

  // The keys under which a run's successful puts wrote, in the order of their first put.
  ghost function Births(from: Start, ops: seq<Op>, cfg: Settings): seq<Birth> {
    if ops == [] then from.births
    else
      var front, op := ops[..|ops| - 1], Last(ops);
      if Succeeds(Run(from.store, front, cfg), op, cfg) then BirthsWith(Births(from, front, cfg), op.q, |op.q.secrets|)
      else Births(from, front, cfg)
  }

  // Rows carry their number in this order, and the run of their first put.
  ghost predicate Numbered(st: State, births: seq<Birth>) {
    && st.nextId == |births|
    && (forall s {:trigger st.secrets[s]} :: s in st.secrets ==>
          st.secrets[s].id < |births| && births[st.secrets[s].id] == Birth(s, st.secrets[s].run))
    && (forall i :: 0 <= i < |births| ==> births[i].scope in st.secrets && st.secrets[births[i].scope].id == i)
  }

  lemma OneWriteNumbered(st: State, births: seq<Birth>, scope: Scope, row: SecretRow)
    requires Numbered(st, births)
    ensures Numbered(WithSecret(st, scope, row),
      if IsBorn(births, scope) then births else births + [Birth(scope, row.run)])
  {
    if scope in st.secrets { assert births[st.secrets[scope].id].scope == scope; }
  }

  lemma {:induction false} WritesNumbered(st: State, births: seq<Birth>, q: PutRequest, a: Acquired,
      keyVersion: string, algo: string, n: nat)
    requires n <= |q.secrets| && Numbered(st, births)
    ensures Numbered(WriteSecrets(st, q, a, keyVersion, algo, n), BirthsWith(births, q, n))
  {
    if n == 0 {
    } else {
      WritesNumbered(st, births, q, a, keyVersion, algo, n - 1);
      OneWriteNumbered(WriteSecrets(st, q, a, keyVersion, algo, n - 1), BirthsWith(births, q, n - 1),
        q.ScopeOf(q.secrets[n - 1].0), q.RowOf(n - 1, a, keyVersion, algo));
    }
  }

  lemma StepNumbered(st: State, births: seq<Birth>, op: Op, cfg: Settings)
    requires Numbered(st, births)
    ensures Numbered(Step(st, op, cfg),
      if Succeeds(st, op, cfg) then BirthsWith(births, op.q, |op.q.secrets|) else births)
  {
    if Succeeds(st, op, cfg) && op.q.secrets != [] {
      var q, p := op.q, op.q.provider;
      var a := Acquire(st, p.active, p.keys, cfg.wrapAlgo, q.seed, op.budget).value;
      WritesNumbered(AfterAcquire(st, a), births, q, a, p.active.version, cfg.cipherAlgo, |q.secrets|);
    }
  }

  lemma {:induction false} RunNumbered(from: Start, ops: seq<Op>, cfg: Settings)
    requires Numbered(from.store, from.births)
    ensures Numbered(Run(from.store, ops, cfg), Births(from, ops, cfg))
  {
    if ops == [] {
    } else {
      var front := ops[..|ops| - 1];
      RunNumbered(from, front, cfg);
      StepNumbered(Run(from.store, front, cfg), Births(from, front, cfg), Last(ops), cfg);
    }
  }

  // ----- round trip ----------------------------------------------------------------------------

  // The ring opens the data key.
  predicate Opens(record: DekRecord, ring: seq<MasterKey>) {
    Unwrap(ring, record.wrapKeyVersion, record.wrapped, record.wrapAlgo).Ok?
  }

  // The ring opens every data key of the store.
  ghost predicate RingOpens(st: State, ring: seq<MasterKey>) {
    forall v {:trigger st.deks[v]} :: v in st.deks ==> Opens(st.deks[v], ring)
  }

  // A sound ring opens the store exactly when it has the wrapping keys of its data keys.
  lemma SoundRingOpensIff(st: State, ring: seq<MasterKey>)
    requires SoundRing(ring)
    ensures RingOpens(st, ring) <==> forall v {:trigger st.deks[v]} :: v in st.deks ==> DekUnder(st.deks[v], ring)
  {
    forall v | v in st.deks ensures Opens(st.deks[v], ring) <==> DekUnder(st.deks[v], ring) {
      SoundOpensIff(st.deks[v], ring);
    }
  }

  lemma SoundOpensIff(record: DekRecord, ring: seq<MasterKey>)
    requires SoundRing(ring)
    ensures Opens(record, ring) <==> DekUnder(record, ring)
  {
    var candidates := Candidates(ring, record.wrapKeyVersion);
    TryKeysOpenIff(candidates, record.wrapped, record.wrapAlgo);
    if Opens(record, ring) {
      var i :| FitsAt(candidates, record.wrapped.under, i);
      CandidatesAreKeys(ring, record.wrapKeyVersion, candidates[i]);
    }
    if DekUnder(record, ring) {
      var k :| k in ring && k.material == record.wrapped.under;
      SoundRingOpens(ring, record.wrapKeyVersion, record.wrapped.dek, k);
    }
  }

  // A found row reads as what was last written under its key exactly when the ring opens
  // its data key.
  lemma FoundRowReadsIff(st: State, wrappers: seq<MasterKey>, ledger: Ledger, active: MasterKey, ring: seq<MasterKey>,
      s: Scope)
    requires Holds(st, wrappers, ledger) && s in ledger
    ensures s in st.secrets && st.secrets[s].dekVersion in st.deks
    ensures ReadRow(st, Unlocked(active, ring), Some(st.secrets[s])) == Ok(Some(ledger[s]))
      <==> Opens(st.deks[st.secrets[s].dekVersion], ring)
  {
    var row := st.secrets[s];
    assert RowSealed(st, row, ledger[s]);
    var record := st.deks[row.dekVersion];
    TryKeysOpenIff(Candidates(ring, record.wrapKeyVersion), record.wrapped, record.wrapAlgo);
  }

  // The documented precedence: what the exact run holds, else the global entry. The two
  // share a key of the index when the run id is empty; its row belongs to the first put.
  ghost function ExactThenGlobal(ledger: Ledger, births: seq<Birth>, dataset: string, field: string, matchKey: string,
      run: Option<string>): Option<string>
  {
    var global := Scope(dataset, field, Sha256(dataset, field, matchKey), "");
    var exact := global.(slot := RunSlot(run));
    if run.Some? && exact in ledger && Birth(exact, run) in births then Some(ledger[exact])
    else if global in ledger && Birth(global, None) in births then Some(ledger[global])
    else None
  }

  // From any store that holds a ledger, after any run of puts and startup checks, failed
  // attempts included, a reader whose ring opens the stored data keys gets the plaintext
  // last written.
  lemma RoundTrip(from: Start, wrappers: seq<MasterKey>, ops: seq<Op>, cfg: Settings, active: MasterKey,
      ring: seq<MasterKey>, dataset: string, field: string, matchKey: string, run: Option<string>)
    requires Known(from, wrappers) && FreshSeeds(from.store, ops, cfg)
    requires RingOpens(Run(from.store, ops, cfg), ring)
    ensures var st := Run(from.store, ops, cfg);
      ReadRow(st, Unlocked(active, ring), RunScoped(st, dataset, field, matchKey, run))
      == Ok(ExactThenGlobal(Written(from, ops, cfg), Births(from, ops, cfg), dataset, field, matchKey, run))
  {
    AnyRunHolds(from, wrappers, ops, cfg);
    RunNumbered(from, ops, cfg);
    var st, ledger, births := Run(from.store, ops, cfg), Written(from, ops, cfg), Births(from, ops, cfg);
    var global := Scope(dataset, field, Sha256(dataset, field, matchKey), "");
    BornFor(st, births, global, None);
    BornFor(st, births, global.(slot := RunSlot(run)), run);
    ScopedReads(st, wrappers + Actives(ops), ledger, births, active, ring, dataset, field, matchKey, run);
  }

  lemma BornFor(st: State, births: seq<Birth>, s: Scope, run: Option<string>)
    requires Numbered(st, births)
    ensures Birth(s, run) in births <==> s in st.secrets && st.secrets[s].run == run
  {
    if Birth(s, run) in births {
      var i :| 0 <= i < |births| && births[i] == Birth(s, run);
    }
  }

  lemma ScopedReads(st: State, wrappers: seq<MasterKey>, ledger: Ledger, births: seq<Birth>,
      active: MasterKey, ring: seq<MasterKey>, dataset: string, field: string, matchKey: string, run: Option<string>)
    requires Holds(st, wrappers, ledger) && RingOpens(st, ring)
    requires
      var global := Scope(dataset, field, Sha256(dataset, field, matchKey), "");
      var exact := global.(slot := RunSlot(run));
      && (Birth(global, None) in births <==> global in st.secrets && st.secrets[global].run == None)
      && (Birth(exact, run) in births <==> exact in st.secrets && st.secrets[exact].run == run)
    ensures ReadRow(st, Unlocked(active, ring), RunScoped(st, dataset, field, matchKey, run))
      == Ok(ExactThenGlobal(ledger, births, dataset, field, matchKey, run))
  {
    var global := Scope(dataset, field, Sha256(dataset, field, matchKey), "");
    var exact := global.(slot := RunSlot(run));
    if exact in ledger { FoundRowReadsIff(st, wrappers, ledger, active, ring, exact); }
    if global in ledger { FoundRowReadsIff(st, wrappers, ledger, active, ring, global); }
  }

  // ----- without empty run ids -----------------------------------------------------------------

  ghost predicate NoEmptyRun(ops: seq<Op>) {
    forall i :: 0 <= i < |ops| && ops[i].Put? ==> ops[i].q.run != Some("")
  }

  ghost predicate BornInTheirRun(births: seq<Birth>) {
    forall i :: 0 <= i < |births| ==>
      births[i].run == if births[i].scope.slot == "" then None else Some(births[i].scope.slot)
  }

  lemma {:induction false} PutBornInItsRun(births: seq<Birth>, q: PutRequest, n: nat)
    requires n <= |q.secrets| && BornInTheirRun(births) && q.run != Some("")
    ensures BornInTheirRun(BirthsWith(births, q, n))
  {
    if n == 0 {
    } else {
      PutBornInItsRun(births, q, n - 1);
    }
  }

  lemma {:induction false} AllBornInTheirRun(from: Start, ops: seq<Op>, cfg: Settings)
    requires BornInTheirRun(from.births) && NoEmptyRun(ops)
    ensures BornInTheirRun(Births(from, ops, cfg))
  {
    if ops == [] {
    } else {
      var front, op := ops[..|ops| - 1], Last(ops);
      assert NoEmptyRun(front) && op == ops[|ops| - 1];
      AllBornInTheirRun(from, front, cfg);
      if Succeeds(Run(from.store, front, cfg), op, cfg) {
        PutBornInItsRun(Births(from, front, cfg), op.q, |op.q.secrets|);
      }
    }
  }

  // When no put and no read has an empty run id, the precedence is the documented one.
  lemma RoundTripDocumented(from: Start, wrappers: seq<MasterKey>, ops: seq<Op>, cfg: Settings, active: MasterKey,
      ring: seq<MasterKey>, dataset: string, field: string, matchKey: string, run: Option<string>)
    requires Known(from, wrappers) && FreshSeeds(from.store, ops, cfg)
    requires RingOpens(Run(from.store, ops, cfg), ring)
    requires BornInTheirRun(from.births) && NoEmptyRun(ops) && run != Some("")
    ensures
      var st, ledger := Run(from.store, ops, cfg), Written(from, ops, cfg);
      var exact := Scope(dataset, field, Sha256(dataset, field, matchKey), RunSlot(run));
      var global := exact.(slot := "");
      ReadRow(st, Unlocked(active, ring), RunScoped(st, dataset, field, matchKey, run))
      == Ok(if exact in ledger then Some(ledger[exact]) else if global in ledger then Some(ledger[global]) else None)
  {
    RoundTrip(from, wrappers, ops, cfg, active, ring, dataset, field, matchKey, run);
    var global := Scope(dataset, field, Sha256(dataset, field, matchKey), "");
    var exact := global.(slot := RunSlot(run));
    if global in Written(from, ops, cfg) { BornAsWritten(from, wrappers, ops, cfg, global); }
    if exact in Written(from, ops, cfg) { BornAsWritten(from, wrappers, ops, cfg, exact); }
  }

  lemma BornAsWritten(from: Start, wrappers: seq<MasterKey>, ops: seq<Op>, cfg: Settings, s: Scope)
    requires Known(from, wrappers) && FreshSeeds(from.store, ops, cfg)
    requires BornInTheirRun(from.births) && NoEmptyRun(ops) && s in Written(from, ops, cfg)
    ensures Birth(s, if s.slot == "" then None else Some(s.slot)) in Births(from, ops, cfg)
  {
    AnyRunHolds(from, wrappers, ops, cfg);
    RunNumbered(from, ops, cfg);
    AllBornInTheirRun(from, ops, cfg);
    var births := Births(from, ops, cfg);
    var i := Run(from.store, ops, cfg).secrets[s].id;
    assert births[i].scope == s && births[i] in births;
  }

  // With a sound ring, supported algorithms and room to write, a put succeeds.
  lemma PutSucceeds(st: State, ledger: Ledger, q: PutRequest, cfg: Settings, budget: nat)
    requires q.provider.Unlocked? && SoundRing(q.provider.keys) && q.provider.active in q.provider.keys
    requires Holds(st, q.provider.keys, ledger) && cfg.cipherAlgo == FERNET_V1 && cfg.wrapAlgo == FERNET_V1
    requires q.matchKey != "" && budget > |q.secrets|
    ensures PutOutcome(st, q, cfg, budget).Ok?
  {
    var ring := q.provider.keys;
    if ActiveDek(st).Some? {
      var v :| v in st.deks && st.deks[v].isActive && ActiveDek(st).value == st.deks[v];
      var record := st.deks[v];
      assert DekUnder(record, ring);
      var k :| k in ring && k.material == record.wrapped.under;
      SoundRingOpens(ring, record.wrapKeyVersion, record.wrapped.dek, k);
    } else {
      var i :| 0 <= i < |ring| && ring[i] == q.provider.active;
    }
  }

  // What a successful put wrote is what the scope reads as from then on, until the
  // next put into it; other scopes keep theirs.
  lemma {:induction false} PutWritesItsFields(q: PutRequest, n: nat, i: nat)
    requires i < n <= |q.secrets| && forall j, k :: 0 <= j < k < |q.secrets| ==> q.secrets[j].0 != q.secrets[k].0
    ensures q.ScopeOf(q.secrets[i].0) in Writes(q, n) && Writes(q, n)[q.ScopeOf(q.secrets[i].0)] == q.secrets[i].1
  {
    if i < n - 1 { PutWritesItsFields(q, n - 1, i); }
  }

  lemma {:induction false} PutWritesNothingElse(q: PutRequest, n: nat, s: Scope)
    requires n <= |q.secrets| && s in Writes(q, n)
    ensures exists i :: 0 <= i < n && s == q.ScopeOf(q.secrets[i].0)
  {
    if s != q.ScopeOf(q.secrets[n - 1].0) { PutWritesNothingElse(q, n - 1, s); }
  }

  // ----- the startup guard -----------------------------------------------------------------------

  // Once startup succeeded, running it again writes nothing and succeeds, even when
  // the storage would refuse every write.
  lemma EnsureReadyIdempotent(st: State, q: ReadyRequest, cfg: Settings, budget: nat, seed: Seed, budget2: nat)
    requires EnsureReadyOutcome(st, q, cfg, budget).result.Ok?
    ensures var after := EnsureReadyOutcome(st, q, cfg, budget).state;
      && Ready(after, q.provider.keys, cfg)
      && EnsureReadyOutcome(after, q.(seed := seed), cfg, budget2) == ReadyOutcome(Ok(()), after)
  {}

  // The same data key, active or not.
  ghost predicate SameDek(a: DekRecord, b: DekRecord) {
    a.version == b.version && a.wrapped == b.wrapped && a.wrapAlgo == b.wrapAlgo && a.wrapKeyVersion == b.wrapKeyVersion
  }

  ghost predicate KeepsProbe(st: State, after: State, p: string) {
    p in st.probes ==> p in after.probes && after.probes[p] == st.probes[p]
  }

  ghost predicate KeepsDek(st: State, after: State, v: string) {
    v in st.deks ==> v in after.deks && SameDek(st.deks[v], after.deks[v])
  }

  // The probe and the data keys of one store survive in another.
  ghost predicate Survives(st: State, after: State) {
    (forall p :: KeepsProbe(st, after, p)) && forall v :: KeepsDek(st, after, v)
  }

  lemma SurvivesTrans(a: State, b: State, c: State)
    requires Survives(a, b) && Survives(b, c)
    ensures Survives(a, c)
  {
    forall p ensures KeepsProbe(a, c, p) { assert KeepsProbe(a, b, p) && KeepsProbe(b, c, p); }
    forall v ensures KeepsDek(a, c, v) { assert KeepsDek(a, b, v) && KeepsDek(b, c, v); }
  }

  lemma {:induction false} WritesSurvive(st: State, q: PutRequest, a: Acquired, keyVersion: string, algo: string,
      n: nat)
    requires n <= |q.secrets|
    ensures WriteSecrets(st, q, a, keyVersion, algo, n).deks == st.deks
    ensures WriteSecrets(st, q, a, keyVersion, algo, n).probes == st.probes
  {
    if n == 0 {
    } else {
      WritesSurvive(st, q, a, keyVersion, algo, n - 1);
    }
  }

  lemma AcquireSurvives(st: State, active: MasterKey, keys: seq<MasterKey>, wrapAlgo: string, seed: Seed, budget: nat)
    requires seed.version !in st.deks && Acquire(st, active, keys, wrapAlgo, seed, budget).Ok?
    ensures Survives(st, AfterAcquire(st, Acquire(st, active, keys, wrapAlgo, seed, budget).value))
  {
    var a := Acquire(st, active, keys, wrapAlgo, seed, budget).value;
    forall v ensures KeepsDek(st, AfterAcquire(st, a), v) {}
    forall p ensures KeepsProbe(st, AfterAcquire(st, a), p) {}
  }

  lemma PutSurvives(st: State, q: PutRequest, cfg: Settings, budget: nat)
    requires q.seed.version !in st.deks && PutOutcome(st, q, cfg, budget).Ok?
    ensures Survives(st, PutOutcome(st, q, cfg, budget).value)
  {
    if q.secrets != [] {
      var p := q.provider;
      AcquireSurvives(st, p.active, p.keys, cfg.wrapAlgo, q.seed, budget);
      var a := Acquire(st, p.active, p.keys, cfg.wrapAlgo, q.seed, budget).value;
      var keyed := AfterAcquire(st, a);
      WritesSurvive(keyed, q, a, p.active.version, cfg.cipherAlgo, |q.secrets|);
      SameKeysSurvive(st, keyed, PutOutcome(st, q, cfg, budget).value);
    }
  }

  lemma SameKeysSurvive(st: State, keyed: State, after: State)
    requires Survives(st, keyed) && after.deks == keyed.deks && after.probes == keyed.probes
    ensures Survives(st, after)
  {
    forall v ensures KeepsDek(st, after, v) { assert KeepsDek(st, keyed, v); }
    forall p ensures KeepsProbe(st, after, p) { assert KeepsProbe(st, keyed, p); }
  }

  // The guard stores a probe only where there is none.
  lemma GuardSurvives(st: State, g: ReadyRequest, cfg: Settings, budget: nat)
    requires g.seed.version !in st.deks
    ensures Survives(st, EnsureReadyOutcome(st, g, cfg, budget).state)
  {
    var p := g.provider;
    if p.Unlocked? && cfg.probeName !in st.probes && Acquire(st, p.active, p.keys, cfg.wrapAlgo, g.seed, budget).Ok? {
      AcquireSurvives(st, p.active, p.keys, cfg.wrapAlgo, g.seed, budget);
      var a := Acquire(st, p.active, p.keys, cfg.wrapAlgo, g.seed, budget).value;
      NewProbeSurvives(st, AfterAcquire(st, a), NewProbe(cfg, a, p.active));
    }
  }

  lemma NewProbeSurvives(st: State, keyed: State, probe: Probe)
    requires Survives(st, keyed) && probe.name !in st.probes
    ensures Survives(st, WithProbe(keyed, probe))
  {
    var after := WithProbe(keyed, probe);
    forall v ensures KeepsDek(st, after, v) { assert KeepsDek(st, keyed, v); }
    forall p ensures KeepsProbe(st, after, p) { assert KeepsProbe(st, keyed, p); }
  }

  lemma StepSurvives(st: State, op: Op, cfg: Settings)
    requires op.Seed().version !in st.deks
    ensures Survives(st, Step(st, op, cfg))
  {
    match op
    case Put(q, budget) => if PutOutcome(st, q, cfg, budget).Ok? { PutSurvives(st, q, cfg, budget); }
    case Guard(g, budget) => GuardSurvives(st, g, cfg, budget);
  }

  lemma {:induction false} RunSurvives(st: State, ops: seq<Op>, cfg: Settings)
    requires FreshSeeds(st, ops, cfg)
    ensures Survives(st, Run(st, ops, cfg))
  {
    if ops == [] {
    } else {
      var front := ops[..|ops| - 1];
      RunSurvives(st, front, cfg);
      StepSurvives(Run(st, front, cfg), Last(ops), cfg);
      SurvivesTrans(st, Run(st, front, cfg), Run(st, ops, cfg));
    }
  }

  // A vault that is ready stays ready through every later operation, under a keyring that
  // opens the probe's data key and under no other.
  lemma ReadyStaysIff(st: State, ops: seq<Op>, cfg: Settings, keys: seq<MasterKey>, later: seq<MasterKey>)
    requires Ready(st, keys, cfg) && FreshSeeds(st, ops, cfg)
    ensures Ready(Run(st, ops, cfg), later, cfg) <==> Opens(st.deks[st.probes[cfg.probeName].dekVersion], later)
  {
    RunSurvives(st, ops, cfg);
    SurvivingProbeOpensIff(st, Run(st, ops, cfg), cfg, keys, later);
  }

  lemma SurvivingProbeOpensIff(st: State, after: State, cfg: Settings, keys: seq<MasterKey>, later: seq<MasterKey>)
    requires Ready(st, keys, cfg) && Survives(st, after)
    ensures Ready(after, later, cfg) <==> Opens(st.deks[st.probes[cfg.probeName].dekVersion], later)
  {
    assert KeepsProbe(st, after, cfg.probeName);
    var v := st.probes[cfg.probeName].dekVersion;
    assert KeepsDek(st, after, v);
    var record := st.deks[v];
    TryKeysOpenIff(Candidates(keys, record.wrapKeyVersion), record.wrapped, record.wrapAlgo);
    TryKeysOpenIff(Candidates(later, record.wrapKeyVersion), record.wrapped, record.wrapAlgo);
  }

  // So under the keyring it was ready with, and under every sound one that holds its keys.
  lemma ReadyStays(st: State, ops: seq<Op>, cfg: Settings, keys: seq<MasterKey>, grown: seq<MasterKey>)
    requires Ready(st, keys, cfg) && FreshSeeds(st, ops, cfg)
    requires grown == keys || (SoundRing(grown) && forall k :: k in keys ==> k in grown)
    ensures Ready(Run(st, ops, cfg), grown, cfg)
  {
    ReadyStaysIff(st, ops, cfg, keys, grown);
    var record := st.deks[st.probes[cfg.probeName].dekVersion];
    if grown != keys { GrowthKeepsUnwrap(keys, grown, record.wrapKeyVersion, record.wrapped, record.wrapAlgo); }
  }
}
