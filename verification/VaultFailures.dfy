// When each vault service fails, and with which error: told by the store, the keyring and
// the settings.
// Source: connector/domain/secrets/secret_vault_read_service.py,
// secret_vault_write_service.py and vault_startup_guard.py
module VaultFailures {
  import opened Basics
  import opened VaultCrypto
  import opened VaultStore
  import opened VaultServices
  import opened VaultRuns

  // ----- one data key under a keyring ---------------------------------------------------------

  // Some key opens it; a malformed key is met before one that does; no key does.
  ghost predicate KeyOpens(record: DekRecord, keys: seq<MasterKey>) {
    && record.wrapAlgo == FERNET_V1 && record.wrapped.WrapToken?
    && RingFits(keys, record.wrapKeyVersion, record.wrapped.under)
  }

  ghost predicate KeyStops(record: DekRecord, keys: seq<MasterKey>) {
    && record.wrapAlgo == FERNET_V1 && record.wrapped.WrapToken?
    && RingStops(keys, record.wrapKeyVersion, record.wrapped.under)
  }

  ghost predicate KeyMisses(record: DekRecord, keys: seq<MasterKey>) {
    || record.wrapAlgo != FERNET_V1 || record.wrapped.BadWrap?
    || RingMisses(keys, record.wrapKeyVersion, record.wrapped.under)
  }

  lemma KeyReads(record: DekRecord, keys: seq<MasterKey>)
    ensures var r := Unwrap(keys, record.wrapKeyVersion, record.wrapped, record.wrapAlgo);
      && (r.Ok? <==> KeyOpens(record, keys)) && (r.Ok? ==> r == Ok(record.wrapped.dek))
      && (r == Err(BadKey) <==> KeyStops(record, keys)) && (r == Err(NoKeyFits) <==> KeyMisses(record, keys))
  {
    UnwrapOpensIff(keys, record.wrapKeyVersion, record.wrapped, record.wrapAlgo);
    UnwrapFailsIff(keys, record.wrapKeyVersion, record.wrapped, record.wrapAlgo);
  }

  // The ciphertext is malformed or of another algorithm; it was made with another data key.
  predicate Unreadable(c: Ciphertext, algo: string) {
    algo != FERNET_V1 || c.BadToken?
  }

  predicate MadeWith(c: Ciphertext, algo: string, dek: Dek) {
    algo == FERNET_V1 && c.Token? && c.dek == dek
  }

  // ----- reading ------------------------------------------------------------------------------

  // Nothing is read only where nothing is found; for a found row every ending has its own
  // condition.
  lemma RowReadsIff(st: State, provider: Provider, row: Option<SecretRow>)
    ensures ReadRow(st, provider, row) == Ok(None) <==> row == None
    ensures row.Some? ==>
      (ReadRow(st, provider, row) == Err(DekNotFound) <==> row.value.dekVersion !in st.deks)
    ensures row.Some? && row.value.dekVersion in st.deks ==>
      RowEnds(row.value, st.deks[row.value.dekVersion], provider, ReadRow(st, provider, row))
  {
    if row.Some? && row.value.dekVersion in st.deks && provider.Unlocked? {
      KeyReads(st.deks[row.value.dekVersion], provider.keys);
    }
  }

  ghost predicate RowEnds(row: SecretRow, record: DekRecord, provider: Provider, r: Result<Option<string>, ReadError>) {
    && (r == Err(KeyConfigProblem) <==> provider.Locked? || KeyStops(record, provider.keys))
    && (r == Err(NotDecrypted) <==>
          && provider.Unlocked?
          && (KeyMisses(record, provider.keys)
              || (KeyOpens(record, provider.keys) && !Unreadable(row.ciphertext, row.cipherAlgo)
                  && row.ciphertext.dek != record.wrapped.dek)))
    && (r == Err(NotIntact) <==>
          provider.Unlocked? && KeyOpens(record, provider.keys) && Unreadable(row.ciphertext, row.cipherAlgo))
    && (r.Ok? <==>
          && provider.Unlocked? && KeyOpens(record, provider.keys)
          && MadeWith(row.ciphertext, row.cipherAlgo, record.wrapped.dek))
    && (r.Ok? ==> r.value == Some(row.ciphertext.plaintext))
  }

  // After any run a stored row reads as its ledger entry, or as one of two errors, never as
  // nothing.
  lemma StoredRowReads(st: State, wrappers: seq<MasterKey>, ledger: Ledger, active: MasterKey, ring: seq<MasterKey>,
      s: Scope)
    requires Holds(st, wrappers, ledger) && s in ledger
    ensures s in st.secrets && st.secrets[s].dekVersion in st.deks
    ensures
      var r, record := ReadRow(st, Unlocked(active, ring), Some(st.secrets[s])), st.deks[st.secrets[s].dekVersion];
      && (r == Ok(Some(ledger[s])) <==> KeyOpens(record, ring))
      && (r == Err(KeyConfigProblem) <==> KeyStops(record, ring))
      && (r == Err(NotDecrypted) <==> KeyMisses(record, ring))
      && (r.Ok? || r.error in {KeyConfigProblem, NotDecrypted})
  {
    assert RowSealed(st, st.secrets[s], ledger[s]);
    RowReadsIff(st, Unlocked(active, ring), Some(st.secrets[s]));
    KeyReads(st.deks[st.secrets[s].dekVersion], ring);
  }

  // ----- the data key of a writer ---------------------------------------------------------------

  // A writer gets a data key: the active one opens, or there is none and a new one can be
  // wrapped and stored.
  ghost predicate KeyAtHand(st: State, active: MasterKey, keys: seq<MasterKey>, wrapAlgo: string, budget: nat) {
    match ActiveDek(st)
    case Some(record) => KeyOpens(record, keys)
    case None => wrapAlgo == FERNET_V1 && active.material.Fernet? && budget > 0
  }

  lemma AcquireEndsIff(st: State, active: MasterKey, keys: seq<MasterKey>, wrapAlgo: string, seed: Seed, budget: nat)
    ensures var r := Acquire(st, active, keys, wrapAlgo, seed, budget);
      && (r.Ok? <==> KeyAtHand(st, active, keys, wrapAlgo, budget))
      && (r == Err(UnwrapFailed(BadKey)) <==> ActiveDek(st).Some? && KeyStops(ActiveDek(st).value, keys))
      && (r == Err(UnwrapFailed(NoKeyFits)) <==> ActiveDek(st).Some? && KeyMisses(ActiveDek(st).value, keys))
      && (r == Err(WrapFailed(Integrity)) <==> ActiveDek(st).None? && wrapAlgo != FERNET_V1)
      && (r == Err(WrapFailed(KeyConfig)) <==>
            ActiveDek(st).None? && wrapAlgo == FERNET_V1 && active.material.Malformed?)
      && (r == Err(DekNotStored) <==>
            ActiveDek(st).None? && wrapAlgo == FERNET_V1 && active.material.Fernet? && budget == 0)
  {
    if ActiveDek(st).Some? { KeyReads(ActiveDek(st).value, keys); }
  }

  // The data key that comes out, and what a new one is stored as.
  lemma AcquireGives(st: State, active: MasterKey, keys: seq<MasterKey>, wrapAlgo: string, seed: Seed, budget: nat)
    requires Acquire(st, active, keys, wrapAlgo, seed, budget).Ok?
    ensures var a := Acquire(st, active, keys, wrapAlgo, seed, budget).value;
      && a.record.wrapped.WrapToken? && a.record.wrapped.dek == a.dek
      && (ActiveDek(st).Some? ==> !a.wrote && a.record == ActiveDek(st).value)
      && (ActiveDek(st).None? ==>
            && a.wrote && a.record.version == seed.version && a.record.isActive
            && a.record.wrapped == WrapToken(seed.dek, active.material)
            && a.record.wrapAlgo == wrapAlgo && a.record.wrapKeyVersion == active.version)
  {
    if ActiveDek(st).Some? { KeyReads(ActiveDek(st).value, keys); }
  }

  // ----- writing --------------------------------------------------------------------------------

  // Something is to be stored, under a key.
  predicate Asks(q: PutRequest) {
    q.secrets != [] && q.matchKey != ""
  }

  ghost predicate PutKeyAtHand(st: State, q: PutRequest, cfg: Settings, budget: nat) {
    q.provider.Unlocked? && KeyAtHand(st, q.provider.active, q.provider.keys, cfg.wrapAlgo, budget)
  }

  ghost predicate Room(st: State, q: PutRequest, budget: nat) {
    budget >= |q.secrets| + if ActiveDek(st).Some? then 0 else 1
  }

  lemma PutSucceedsIff(st: State, q: PutRequest, cfg: Settings, budget: nat)
    ensures PutOutcome(st, q, cfg, budget).Ok? <==>
      || q.secrets == []
      || (Asks(q) && PutKeyAtHand(st, q, cfg, budget) && cfg.cipherAlgo == FERNET_V1 && Room(st, q, budget))
    ensures q.secrets == [] ==> PutOutcome(st, q, cfg, budget) == Ok(st)
    ensures PutOutcome(st, q, cfg, budget) == Err(MatchKeyMissing) <==> q.secrets != [] && q.matchKey == ""
  {
    if q.provider.Unlocked? {
      AcquireEndsIff(st, q.provider.active, q.provider.keys, cfg.wrapAlgo, q.seed, budget);
    }
  }

  lemma PutFailsIff(st: State, q: PutRequest, cfg: Settings, budget: nat)
    ensures PutOutcome(st, q, cfg, budget) == Err(DekUnwrapFailed) <==>
      Asks(q) && q.provider.Unlocked? && ActiveDek(st).Some? && KeyMisses(ActiveDek(st).value, q.provider.keys)
    ensures PutOutcome(st, q, cfg, budget) == Err(CryptoFailure) <==>
      && Asks(q)
      && (|| q.provider.Locked?
          || (ActiveDek(st).Some? && KeyStops(ActiveDek(st).value, q.provider.keys))
          || (ActiveDek(st).None? && (cfg.wrapAlgo != FERNET_V1 || q.provider.active.material.Malformed?))
          || (PutKeyAtHand(st, q, cfg, budget) && cfg.cipherAlgo != FERNET_V1))
    ensures PutOutcome(st, q, cfg, budget) == Err(StorageFailure) <==>
      && Asks(q) && q.provider.Unlocked?
      && (|| (ActiveDek(st).None? && cfg.wrapAlgo == FERNET_V1 && q.provider.active.material.Fernet? && budget == 0)
          || (PutKeyAtHand(st, q, cfg, budget) && cfg.cipherAlgo == FERNET_V1 && !Room(st, q, budget)))
  {
    if q.provider.Unlocked? {
      AcquireEndsIff(st, q.provider.active, q.provider.keys, cfg.wrapAlgo, q.seed, budget);
    }
  }

  // What a successful put leaves under a field: the last value for it, sealed under the
  // active data key, with the names of both keys and of the algorithm, and the time.
  ghost predicate SealedRow(st: State, q: PutRequest, cfg: Settings, i: nat)
    requires i < |q.secrets| && q.provider.Unlocked?
  {
    var s := q.ScopeOf(q.secrets[i].0);
    && s in st.secrets
    && var row := st.secrets[s];
      && row.cipherAlgo == cfg.cipherAlgo && row.keyVersion == q.provider.active.version && row.updatedAt == q.now
      && row.dekVersion in st.deks && st.deks[row.dekVersion].isActive && st.deks[row.dekVersion].wrapped.WrapToken?
      && row.ciphertext == Token(q.secrets[i].1, st.deks[row.dekVersion].wrapped.dek)
  }

  lemma {:induction false} WrittenRows(st: State, q: PutRequest, a: Acquired, cfg: Settings, n: nat, i: nat)
    requires i < n <= |q.secrets| && q.provider.Unlocked?
    requires forall j :: i < j < n ==> q.secrets[j].0 != q.secrets[i].0
    requires a.record.version in st.deks && st.deks[a.record.version] == a.record && a.record.isActive
    requires a.record.wrapped.WrapToken? && a.record.wrapped.dek == a.dek
    ensures WriteSecrets(st, q, a, q.provider.active.version, cfg.cipherAlgo, n).deks == st.deks
    ensures SealedRow(WriteSecrets(st, q, a, q.provider.active.version, cfg.cipherAlgo, n), q, cfg, i)
  {
    if i < n - 1 {
      WrittenRows(st, q, a, cfg, n - 1, i);
    } else {
      WritesLeaveDeks(st, q, a, q.provider.active.version, cfg.cipherAlgo, n - 1);
    }
  }

  lemma {:induction false} WritesLeaveDeks(st: State, q: PutRequest, a: Acquired, keyVersion: string, algo: string,
      n: nat)
    requires n <= |q.secrets|
    ensures WriteSecrets(st, q, a, keyVersion, algo, n).deks == st.deks
  {
    if n == 0 {
    } else {
      WritesLeaveDeks(st, q, a, keyVersion, algo, n - 1);
    }
  }

  lemma PutSealsRows(st: State, q: PutRequest, cfg: Settings, budget: nat, i: nat)
    requires StoreInv(st) && PutOutcome(st, q, cfg, budget).Ok?
    requires i < |q.secrets| && forall j :: i < j < |q.secrets| ==> q.secrets[j].0 != q.secrets[i].0
    ensures q.provider.Unlocked? && SealedRow(PutOutcome(st, q, cfg, budget).value, q, cfg, i)
  {
    var p := q.provider;
    AcquireGives(st, p.active, p.keys, cfg.wrapAlgo, q.seed, budget);
    var a := Acquire(st, p.active, p.keys, cfg.wrapAlgo, q.seed, budget).value;
    WrittenRows(AfterAcquire(st, a), q, a, cfg, |q.secrets|, i);
  }

  // ----- the startup guard ------------------------------------------------------------------------

  predicate ProbeFilled(probe: Probe, cfg: Settings) {
    && probe.name == cfg.probeName && probe.cipherAlgo != "" && probe.keyVersion != "" && probe.dekVersion != ""
    && probe.ciphertext != BadToken("")
  }

  // The stored probe passes exactly when its fields are filled, its data key is stored and
  // opens, and it holds the payload.
  lemma ProbePassesIff(st: State, probe: Probe, keys: seq<MasterKey>, cfg: Settings)
    ensures CheckProbe(st, probe, keys, cfg).Ok? <==>
      && ProbeFilled(probe, cfg) && probe.dekVersion in st.deks && KeyOpens(st.deks[probe.dekVersion], keys)
      && MadeWith(probe.ciphertext, probe.cipherAlgo, st.deks[probe.dekVersion].wrapped.dek)
      && probe.ciphertext.plaintext == cfg.probePayload
  {
    if probe.dekVersion in st.deks { KeyReads(st.deks[probe.dekVersion], keys); }
  }

  // A probe that is not filled fails by the first field that is wrong.
  lemma UnfilledFailsAs(st: State, probe: Probe, keys: seq<MasterKey>, cfg: Settings)
    requires !ProbeFilled(probe, cfg)
    ensures var r := CheckProbe(st, probe, keys, cfg);
      if probe.name != cfg.probeName then r == Err(ProbeCorrupted("probe_name_mismatch"))
      else if probe.cipherAlgo == "" then r == Err(ProbeCorrupted("probe_cipher_algo_missing"))
      else if probe.keyVersion == "" then r == Err(ProbeCorrupted("probe_key_version_missing"))
      else if probe.dekVersion == "" then r == Err(ProbeCorrupted("probe_dek_version_missing"))
      else r == Err(ProbeCorrupted("probe_ciphertext_missing"))
  {}

  // A filled one by its data key, and then by what it holds.
  lemma FilledFailsAs(st: State, probe: Probe, keys: seq<MasterKey>, cfg: Settings)
    requires ProbeFilled(probe, cfg)
    ensures probe.dekVersion !in st.deks ==>
      CheckProbe(st, probe, keys, cfg) == Err(ProbeCorrupted("probe_dek_missing"))
    ensures probe.dekVersion in st.deks ==>
      ProbeEnds(st.deks[probe.dekVersion], probe, keys, cfg, CheckProbe(st, probe, keys, cfg))
  {
    if probe.dekVersion in st.deks {
      ReasonsDiffer();
      KeyReads(st.deks[probe.dekVersion], keys);
    }
  }

  lemma ReasonsDiffer()
    ensures "probe_ciphertext_corrupted" != "probe_payload_mismatch" && "dek_unwrap_failed" != "probe_decrypt_failed"
  {
    assert "probe_ciphertext_corrupted"[6] == 'c' && "probe_payload_mismatch"[6] == 'p';
    assert "dek_unwrap_failed"[0] == 'd' && "probe_decrypt_failed"[0] == 'p';
  }

  ghost predicate ProbeEnds(record: DekRecord, probe: Probe, keys: seq<MasterKey>, cfg: Settings,
      r: Result<(), GuardError>)
  {
    && (r == Err(GuardKeyConfig) <==> KeyStops(record, keys))
    && (r == Err(KeyValidation("dek_unwrap_failed")) <==> KeyMisses(record, keys))
    && (r == Err(ProbeCorrupted("probe_ciphertext_corrupted")) <==>
          KeyOpens(record, keys) && Unreadable(probe.ciphertext, probe.cipherAlgo))
    && (r == Err(KeyValidation("probe_decrypt_failed")) <==>
          KeyOpens(record, keys) && !Unreadable(probe.ciphertext, probe.cipherAlgo)
          && probe.ciphertext.dek != record.wrapped.dek)
    && (r == Err(ProbeCorrupted("probe_payload_mismatch")) <==>
          KeyOpens(record, keys) && MadeWith(probe.ciphertext, probe.cipherAlgo, record.wrapped.dek)
          && probe.ciphertext.plaintext != cfg.probePayload)
  }

  // The vault is ready exactly when the provider names keys, the probe is there or can be
  // written, what is then stored passes, and strict read-only storage is not in the way.
  lemma ReadyIff(st: State, g: ReadyRequest, cfg: Settings, budget: nat)
    ensures
      var o := EnsureReadyOutcome(st, g, cfg, budget);
      o.result.Ok? <==>
        && g.provider.Unlocked? && !(g.readonlyStorage && cfg.strictReadonly)
        && (cfg.probeName in st.probes || (!g.readonlyStorage && CanCreateProbe(st, g, cfg, budget)))
        && cfg.probeName in o.state.probes
        && CheckProbe(o.state, o.state.probes[cfg.probeName], g.provider.keys, cfg).Ok?
  {
    if g.provider.Unlocked? {
      AcquireEndsIff(st, g.provider.active, g.provider.keys, cfg.wrapAlgo, g.seed, budget);
      if CanCreateProbe(st, g, cfg, budget) {
        AcquireGives(st, g.provider.active, g.provider.keys, cfg.wrapAlgo, g.seed, budget);
      }
    }
  }

  ghost predicate CanCreateProbe(st: State, g: ReadyRequest, cfg: Settings, budget: nat) {
    && g.provider.Unlocked? && KeyAtHand(st, g.provider.active, g.provider.keys, cfg.wrapAlgo, budget)
    && cfg.cipherAlgo == FERNET_V1 && budget > if ActiveDek(st).Some? then 0 else 1
  }

  // The probe that is written.
  lemma ProbeWritten(st: State, g: ReadyRequest, cfg: Settings, budget: nat)
    requires StoreInv(st) && cfg.probeName !in st.probes && !g.readonlyStorage && CanCreateProbe(st, g, cfg, budget)
    ensures
      var now := EnsureReadyOutcome(st, g, cfg, budget).state;
      && cfg.probeName in now.probes
      && var probe := now.probes[cfg.probeName];
        && probe.name == cfg.probeName && probe.cipherAlgo == cfg.cipherAlgo
        && probe.keyVersion == g.provider.active.version
        && probe.dekVersion in now.deks && now.deks[probe.dekVersion].isActive
        && now.deks[probe.dekVersion].wrapped.WrapToken?
        && probe.ciphertext == Token(cfg.probePayload, now.deks[probe.dekVersion].wrapped.dek)
  {
    var p := g.provider;
    AcquireEndsIff(st, p.active, p.keys, cfg.wrapAlgo, g.seed, budget);
    AcquireGives(st, p.active, p.keys, cfg.wrapAlgo, g.seed, budget);
  }

  // Why a probe is not created.
  lemma NotCreatedAs(st: State, g: ReadyRequest, cfg: Settings, budget: nat)
    requires g.provider.Unlocked?
    ensures
      var r, none, p := CreateProbeOutcome(st, g, cfg, budget).result, ActiveDek(st).None?, g.provider;
      && (r.Ok? <==> CanCreateProbe(st, g, cfg, budget))
      && (r == Err(ProbeCorrupted("dek_wrap_failed")) <==> none && cfg.wrapAlgo != FERNET_V1)
      && (r == Err(GuardKeyConfig) <==>
            if none then cfg.wrapAlgo == FERNET_V1 && p.active.material.Malformed?
            else KeyStops(ActiveDek(st).value, p.keys))
      && (r == Err(KeyValidation("dek_unwrap_failed")) <==> !none && KeyMisses(ActiveDek(st).value, p.keys))
      && (r == Err(ProbeCorrupted("dek_write_failed")) <==>
            none && cfg.wrapAlgo == FERNET_V1 && p.active.material.Fernet? && budget == 0)
      && (r == Err(ProbeCorrupted("probe_encrypt_failed")) <==>
            KeyAtHand(st, p.active, p.keys, cfg.wrapAlgo, budget) && cfg.cipherAlgo != FERNET_V1)
  {
    assert "dek_wrap_failed"[6] == 'a' && "dek_write_failed"[6] == 'i' && "probe_encrypt_failed"[6] == 'e';
    assert "probe_write_failed"[6] == 'w';
    AcquireEndsIff(st, g.provider.active, g.provider.keys, cfg.wrapAlgo, g.seed, budget);
    if KeyAtHand(st, g.provider.active, g.provider.keys, cfg.wrapAlgo, budget) {
      AcquireGives(st, g.provider.active, g.provider.keys, cfg.wrapAlgo, g.seed, budget);
    }
  }

  // The errors of a check and of a creation are not those of a read-only storage.
  predicate AboutKeysOrProbe(r: Result<(), GuardError>) {
    r.Ok? || r.error.GuardKeyConfig? || r.error.ProbeCorrupted? || r.error.KeyValidation?
  }

  lemma CheckErrors(st: State, probe: Probe, keys: seq<MasterKey>, cfg: Settings)
    ensures AboutKeysOrProbe(CheckProbe(st, probe, keys, cfg))
  {}

  lemma CreateErrors(st: State, g: ReadyRequest, cfg: Settings, budget: nat)
    requires g.provider.Unlocked?
    ensures AboutKeysOrProbe(CreateProbeOutcome(st, g, cfg, budget).result)
  {}

  // What stands in the way of a check, before any probe is looked at and after.
  lemma NotReadyAs(st: State, g: ReadyRequest, cfg: Settings, budget: nat)
    ensures
      var o := EnsureReadyOutcome(st, g, cfg, budget);
      && (g.provider.Locked? ==> o == ReadyOutcome(Err(GuardKeyConfig), st))
      && (o.result == Err(UninitializedReadonly) <==>
            g.provider.Unlocked? && cfg.probeName !in st.probes && g.readonlyStorage)
      && (cfg.probeName in st.probes ==> o.state == st)
      && (o.result == Err(StorageReadonly) <==>
            && g.provider.Unlocked? && cfg.probeName in st.probes && g.readonlyStorage && cfg.strictReadonly
            && CheckProbe(st, st.probes[cfg.probeName], g.provider.keys, cfg).Ok?)
  {
    var o := EnsureReadyOutcome(st, g, cfg, budget);
    if g.provider.Unlocked? {
      CreateErrors(st, g, cfg, budget);
      if cfg.probeName in o.state.probes {
        CheckErrors(o.state, o.state.probes[cfg.probeName], g.provider.keys, cfg);
      }
    }
  }
}
