// The vault repository: data keys, secrets and probes, with storage that may
// stop accepting writes.
// Source: connector/domain/ports/secrets/repository.py and
// connector/infra/secrets/sqlite/repository.py
module VaultStore {
  import opened Basics
  import opened VaultCrypto

  datatype DekRecord = DekRecord(version: string, wrapped: Wrapped, wrapAlgo: string, wrapKeyVersion: string,
      isActive: bool)

  // SHA-256 of dataset, field and the canonical source reference; no two collide.
  datatype Locator = Sha256(dataset: string, field: string, matchKey: string)

  // COALESCE(run_id, '')
  function RunSlot(run: Option<string>): string {
    if run.Some? then run.value else ""
  }

  // The key of the unique index: without a run id and with an empty one it is the same.
  datatype Scope = Scope(dataset: string, field: string, locator: Locator, slot: string)

  datatype SecretRow = SecretRow(
    id: nat, matchKey: string, run: Option<string>, ciphertext: Ciphertext, cipherAlgo: string,
    keyVersion: string, dekVersion: string, updatedAt: int)

  datatype Probe = Probe(name: string, ciphertext: Ciphertext, cipherAlgo: string, keyVersion: string,
      dekVersion: string)

  datatype State = State(deks: map<string, DekRecord>, secrets: map<Scope, SecretRow>, probes: map<string, Probe>,
      nextId: nat)

  const EMPTY := State(map[], map[], map[], 0)

  // ----- what each write does --------------------------------------------------------

  // An upsert keeps the row's id, match key and run id; a new row takes the next id.
  function WithSecret(st: State, scope: Scope, row: SecretRow): State {
    if scope in st.secrets then
      var stored := st.secrets[scope];
      st.(secrets := st.secrets[scope := row.(id := stored.id, matchKey := stored.matchKey, run := stored.run)])
    else
      st.(secrets := st.secrets[scope := row.(id := st.nextId)], nextId := st.nextId + 1)
  }

  // Storing an active data key deactivates every other.
  function WithDek(st: State, dek: DekRecord): State {
    var others := if dek.isActive then map v | v in st.deks :: st.deks[v].(isActive := false) else st.deks;
    st.(deks := others[dek.version := dek])
  }

  function WithProbe(st: State, probe: Probe): State {
    st.(probes := st.probes[probe.name := probe])
  }

  // ----- what the store keeps -----------------------------------------------------------

  ghost predicate AtMostOneActive(st: State) {
    forall v, w :: v in st.deks && w in st.deks && st.deks[v].isActive && st.deks[w].isActive ==> v == w
  }

  ghost predicate DeksNamed(st: State) {
    forall v {:trigger st.deks[v]} :: v in st.deks ==> st.deks[v].version == v
  }

  ghost predicate ReferencesStored(st: State) {
    (forall s {:trigger st.secrets[s]} :: s in st.secrets ==> st.secrets[s].dekVersion in st.deks)
    && forall p {:trigger st.probes[p]} :: p in st.probes ==> st.probes[p].dekVersion in st.deks
  }

  ghost predicate RowsIdentified(st: State) {
    && (forall s {:trigger st.secrets[s]} :: s in st.secrets ==>
          && st.secrets[s].id < st.nextId && s.locator == Sha256(s.dataset, s.field, st.secrets[s].matchKey)
          && s.slot == RunSlot(st.secrets[s].run))
    && (forall s, t :: s in st.secrets && t in st.secrets && st.secrets[s].id == st.secrets[t].id ==> s == t)
  }

  ghost predicate StoreInv(st: State) {
    AtMostOneActive(st) && DeksNamed(st) && ReferencesStored(st) && RowsIdentified(st)
  }

  ghost function ActiveDek(st: State): (r: Option<DekRecord>)
    ensures r.Some? ==> exists v :: v in st.deks && st.deks[v].isActive && r.value == st.deks[v]
    ensures r.None? ==> forall v {:trigger st.deks[v]} :: v in st.deks ==> !st.deks[v].isActive
  {
    if exists v :: v in st.deks && st.deks[v].isActive then
      var v :| v in st.deks && st.deks[v].isActive;
      Some(st.deks[v])
    else None
  }

  // ----- how a secret is looked up ---------------------------------------------------------

  // The lookup the read service documents: the exact run, else the global entry.
  function RunScoped(st: State, dataset: string, field: string, matchKey: string, run: Option<string>)
    : Option<SecretRow>
  {
    var global := Scope(dataset, field, Sha256(dataset, field, matchKey), "");
    var exact := global.(slot := RunSlot(run));
    if run.Some? && exact in st.secrets && st.secrets[exact].run == run then Some(st.secrets[exact])
    else if global in st.secrets && st.secrets[global].run == None then Some(st.secrets[global])
    else None
  }

  // The rows stored under a match key, and those stored under a locator, of any run.
  function KeyRows(st: State, dataset: string, field: string, matchKey: string): set<Scope> {
    set s | s in st.secrets && s.dataset == dataset && s.field == field && st.secrets[s].matchKey == matchKey
  }

  function LocatorRows(st: State, dataset: string, field: string, locator: Locator): set<Scope> {
    set s | s in st.secrets && s.dataset == dataset && s.field == field && s.locator == locator
  }

  predicate NotNewer(a: SecretRow, b: SecretRow) {
    a.updatedAt < b.updatedAt || (a.updatedAt == b.updatedAt && a.id <= b.id)
  }

  ghost predicate NewestOf(st: State, scopes: set<Scope>, s: Scope)
    requires scopes <= st.secrets.Keys
  {
    s in scopes && forall t :: t in scopes ==> NotNewer(st.secrets[t], st.secrets[s])
  }

  ghost predicate IsNewestRow(st: State, scopes: set<Scope>, r: Option<SecretRow>)
    requires scopes <= st.secrets.Keys
  {
    if r.Some? then exists s :: NewestOf(st, scopes, s) && r.value == st.secrets[s] else scopes == {}
  }

  // The lookup the SQLite store performs when a match key is given: the most recently
  // updated row under the key, of any run; without one, under the locator.
  ghost predicate IsCrossRun(st: State, dataset: string, field: string, matchKey: string, r: Option<SecretRow>) {
    var keyed := KeyRows(st, dataset, field, matchKey);
    IsNewestRow(st, if keyed != {} then keyed else LocatorRows(st, dataset, field, Sha256(dataset, field, matchKey)), r)
  }

  datatype LookupMode = ByRun | ByMatchKey

  class VaultRepository {
    var state: State
    // How many more writes the storage accepts before it raises.
    var writesLeft: nat
    const lookup: LookupMode

    constructor (lookup: LookupMode, writesLeft: nat)
      ensures this.state == EMPTY && this.writesLeft == writesLeft && this.lookup == lookup
    {
      this.state, this.writesLeft, this.lookup := EMPTY, writesLeft, lookup;
    }

    method UpsertSecret(scope: Scope, row: SecretRow) returns (ok: bool)
      modifies this
      ensures ok == (old(writesLeft) > 0)
      ensures if ok then state == WithSecret(old(state), scope, row) && writesLeft == old(writesLeft) - 1
              else state == old(state) && writesLeft == old(writesLeft)
    {
      ok := writesLeft > 0;
      if ok {
        state := WithSecret(state, scope, row);
        writesLeft := writesLeft - 1;
      }
    }

    method UpsertDek(dek: DekRecord) returns (ok: bool)
      modifies this
      ensures ok == (old(writesLeft) > 0)
      ensures if ok then state == WithDek(old(state), dek) && writesLeft == old(writesLeft) - 1
              else state == old(state) && writesLeft == old(writesLeft)
    {
      ok := writesLeft > 0;
      if ok {
        state := WithDek(state, dek);
        writesLeft := writesLeft - 1;
      }
    }

    method UpsertProbe(probe: Probe) returns (ok: bool)
      modifies this
      ensures ok == (old(writesLeft) > 0)
      ensures if ok then state == WithProbe(old(state), probe) && writesLeft == old(writesLeft) - 1
              else state == old(state) && writesLeft == old(writesLeft)
    {
      ok := writesLeft > 0;
      if ok {
        state := WithProbe(state, probe);
        writesLeft := writesLeft - 1;
      }
    }

    method GetActiveDek() returns (r: Option<DekRecord>)
      requires AtMostOneActive(state)
      ensures r == ActiveDek(state)
    {
      var versions := state.deks.Keys;
      while versions != {}
        invariant versions <= state.deks.Keys
        invariant forall v :: v in state.deks && v !in versions ==> !state.deks[v].isActive
      {
        var v :| v in versions;
        if state.deks[v].isActive {
          return Some(state.deks[v]);
        }
        versions := versions - {v};
      }
      return None;
    }

    method GetSecret(dataset: string, field: string, matchKey: string, run: Option<string>)
      returns (r: Option<SecretRow>)
      ensures if lookup == ByMatchKey && matchKey != "" then IsCrossRun(state, dataset, field, matchKey, r)
              else r == RunScoped(state, dataset, field, matchKey, run)
    {
      if lookup == ByRun || matchKey == "" {
        return RunScoped(state, dataset, field, matchKey, run);
      }
      r := Newest(KeyRows(state, dataset, field, matchKey));
      if r.None? {
        r := Newest(LocatorRows(state, dataset, field, Sha256(dataset, field, matchKey)));
      }
    }

    // ORDER BY updated_at DESC, secret_id DESC LIMIT 1
    method Newest(scopes: set<Scope>) returns (r: Option<SecretRow>)
      requires scopes <= state.secrets.Keys
      ensures IsNewestRow(state, scopes, r)
    {
      r := None;
      ghost var best: Option<Scope> := None;
      var rest := scopes;
      while rest != {}
        invariant rest <= scopes
        invariant best.None? <==> r.None?
        invariant best.Some? ==> best.value in scopes && r == Some(state.secrets[best.value])
        invariant forall t :: t in scopes - rest ==> r.Some? && NotNewer(state.secrets[t], r.value)
      {
        var s :| s in rest;
        var row := state.secrets[s];
        if r.None? || NotNewer(r.value, row) {
          r := Some(row);
          best := Some(s);
        }
        rest := rest - {s};
      }
      if best.Some? { assert NewestOf(state, scopes, best.value); }
    }
  }

  // ----- the writes keep the store sound -------------------------------------------------

  lemma DekKeepsStore(st: State, dek: DekRecord)
    requires StoreInv(st) && dek.isActive
    ensures StoreInv(WithDek(st, dek)) && ActiveDek(WithDek(st, dek)) == Some(dek)
  {
    var after := WithDek(st, dek);
    assert after.deks[dek.version] == dek;
  }

  // The row belongs under this key of the index.
  predicate RowFits(scope: Scope, row: SecretRow) {
    scope.locator == Sha256(scope.dataset, scope.field, row.matchKey) && scope.slot == RunSlot(row.run)
  }

  lemma SecretKeepsStore(st: State, scope: Scope, row: SecretRow)
    requires StoreInv(st) && row.dekVersion in st.deks && RowFits(scope, row)
    ensures StoreInv(WithSecret(st, scope, row))
  {}

  lemma ProbeKeepsStore(st: State, probe: Probe)
    requires StoreInv(st) && probe.dekVersion in st.deks
    ensures StoreInv(WithProbe(st, probe))
  {}

  // ----- run scope and the SQLite lookup ----------------------------------------------------

  lemma {:induction false} NewestExists(st: State, scopes: set<Scope>)
    requires scopes != {} && scopes <= st.secrets.Keys
    ensures exists s :: NewestOf(st, scopes, s)
  {
    var a :| a in scopes;
    var rest := scopes - {a};
    if rest == {} {
      assert scopes == {a};
      assert NewestOf(st, scopes, a);
    } else {
      NewestExists(st, rest);
      var b :| NewestOf(st, rest, b);
      assert NewestOf(st, scopes, if NotNewer(st.secrets[a], st.secrets[b]) then b else a);
    }
  }

  lemma NewestUnique(st: State, scopes: set<Scope>, s: Scope, r: Option<SecretRow>)
    requires RowsIdentified(st) && scopes <= st.secrets.Keys && NewestOf(st, scopes, s) && IsNewestRow(st, scopes, r)
    ensures r == Some(st.secrets[s])
  {
    if r.Some? {
      var t :| NewestOf(st, scopes, t) && r.value == st.secrets[t];
      assert NotNewer(st.secrets[s], st.secrets[t]) && NotNewer(st.secrets[t], st.secrets[s]);
    }
  }

  // A scope of the secret, in whatever run.
  predicate IsOf(s: Scope, dataset: string, field: string, matchKey: string) {
    s.dataset == dataset && s.field == field && s.locator == Sha256(dataset, field, matchKey)
  }

  // Rows written with a match key are found under it: the locator adds none.
  lemma FallbackFindsNothing(st: State, dataset: string, field: string, matchKey: string)
    requires RowsIdentified(st)
    ensures KeyRows(st, dataset, field, matchKey) == LocatorRows(st, dataset, field, Sha256(dataset, field, matchKey))
  {
    forall s | s in st.secrets && s.dataset == dataset && s.field == field
      ensures st.secrets[s].matchKey == matchKey <==> s.locator == Sha256(dataset, field, matchKey)
    {
      assert s.locator == Sha256(s.dataset, s.field, st.secrets[s].matchKey);
    }
  }

  ghost predicate LookupsAgree(st: State, dataset: string, field: string, matchKey: string) {
    forall run, r :: IsCrossRun(st, dataset, field, matchKey, r) ==> r == RunScoped(st, dataset, field, matchKey, run)
  }

  // The two lookups agree for every run exactly when none of the secret's rows is
  // bound to a run; the SQLite store ignores the run it is asked for.
  lemma LookupsAgreeIff(st: State, dataset: string, field: string, matchKey: string)
    requires RowsIdentified(st)
    ensures LookupsAgree(st, dataset, field, matchKey) <==>
      forall s :: s in KeyRows(st, dataset, field, matchKey) ==> st.secrets[s].run == None
  {
    FallbackFindsNothing(st, dataset, field, matchKey);
    if b :| b in KeyRows(st, dataset, field, matchKey) && st.secrets[b].run != None {
      BoundRowDisagrees(st, dataset, field, matchKey, b);
    } else {
      forall run, r | IsCrossRun(st, dataset, field, matchKey, r)
        ensures r == RunScoped(st, dataset, field, matchKey, run)
      {
        OnlyGlobal(st, dataset, field, matchKey, run, r);
      }
    }
  }

  lemma BoundRowDisagrees(st: State, dataset: string, field: string, matchKey: string, b: Scope)
    requires RowsIdentified(st) && b in KeyRows(st, dataset, field, matchKey) && st.secrets[b].run != None
    ensures !LookupsAgree(st, dataset, field, matchKey)
  {
    var all := KeyRows(st, dataset, field, matchKey);
    NewestExists(st, all);
    var top :| NewestOf(st, all, top);
    var r := Some(st.secrets[top]);
    assert IsCrossRun(st, dataset, field, matchKey, r);
    var run := if st.secrets[top].run == None then st.secrets[b].run else None;
    FallbackFindsNothing(st, dataset, field, matchKey);
    assert top in all && b in all;
    assert RunScoped(st, dataset, field, matchKey, run) != r by {
      var found := RunScoped(st, dataset, field, matchKey, run);
      assert found.Some? ==> found.value.id != st.secrets[top].id;
    }
  }

  lemma OnlyGlobal(st: State, dataset: string, field: string, matchKey: string, run: Option<string>,
      r: Option<SecretRow>)
    requires RowsIdentified(st) && IsCrossRun(st, dataset, field, matchKey, r)
    requires forall s :: s in KeyRows(st, dataset, field, matchKey) ==> st.secrets[s].run == None
    ensures r == RunScoped(st, dataset, field, matchKey, run)
  {
    FallbackFindsNothing(st, dataset, field, matchKey);
    var rows := KeyRows(st, dataset, field, matchKey);
    var global := Scope(dataset, field, Sha256(dataset, field, matchKey), "");
    var exact := global.(slot := RunSlot(run));
    assert exact in st.secrets <==> exact in rows;
    assert global in st.secrets <==> global in rows;
    if r.Some? {
      var s :| NewestOf(st, rows, s) && r.value == st.secrets[s];
      assert s == global;
    }
  }
}
