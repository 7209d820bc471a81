// The vault's three services over one repository: writing secrets, reading them,
// and the startup guard.
// Source: connector/domain/secrets/secret_vault_write_service.py,
// secret_vault_read_service.py and vault_startup_guard.py
module VaultServices {
  import opened Basics
  import opened PyText
  import opened VaultCrypto
  import opened VaultStore

  datatype Settings = Settings(
    cipherAlgo: string, wrapAlgo: string, probeName: string, probePayload: string, strictReadonly: bool)

  // The random bytes and the identifier a new data key is made of.
  datatype Seed = Seed(dek: Dek, version: string)

  // ----- the active data key, as both writers obtain it ----------------------------------

  datatype DekError = WrapFailed(cause: CryptoError) | UnwrapFailed(why: UnwrapError) | DekNotStored

  datatype Acquired = Acquired(record: DekRecord, dek: Dek, wrote: bool)

  function NewDek(seed: Seed, wrapped: Wrapped, wrapAlgo: string, active: MasterKey): DekRecord {
    DekRecord(seed.version, wrapped, wrapAlgo, active.version, true)
  }

  ghost function Acquire(st: State, active: MasterKey, keys: seq<MasterKey>, wrapAlgo: string, seed: Seed, budget: nat)
    : Result<Acquired, DekError>
  {
    match ActiveDek(st)
    case Some(record) =>
      (match Unwrap(keys, record.wrapKeyVersion, record.wrapped, record.wrapAlgo)
       case Ok(dek) => Ok(Acquired(record, dek, false))
       case Err(why) => Err(UnwrapFailed(why)))
    case None =>
      match WrapDek(seed.dek, active.material, wrapAlgo)
      case Err(cause) => Err(WrapFailed(cause))
      case Ok(wrapped) =>
        if budget == 0 then Err(DekNotStored)
        else Ok(Acquired(NewDek(seed, wrapped, wrapAlgo, active), seed.dek, true))
  }

  ghost function AfterAcquire(st: State, a: Acquired): State {
    if a.wrote then WithDek(st, a.record) else st
  }

  method EnsureActiveDek(repository: VaultRepository, active: MasterKey, keys: seq<MasterKey>, wrapAlgo: string,
      seed: Seed)
    returns (r: Result<Acquired, DekError>)
    requires AtMostOneActive(repository.state)
    modifies repository
    ensures r == Acquire(old(repository.state), active, keys, wrapAlgo, seed, old(repository.writesLeft))
    ensures r.Err? ==> repository.state == old(repository.state) && repository.writesLeft == old(repository.writesLeft)
    ensures r.Ok? ==> repository.state == AfterAcquire(old(repository.state), r.value)
    ensures r.Ok? ==> repository.writesLeft == old(repository.writesLeft) - if r.value.wrote then 1 else 0
  {
    var record := repository.GetActiveDek();
    if record.Some? {
      var found := UnwrapUnder(keys, record.value.wrapKeyVersion, record.value.wrapped, record.value.wrapAlgo);
      if found.Err? { return Err(UnwrapFailed(found.error)); }
      return Ok(Acquired(record.value, found.value, false));
    }
    var wrapped := WrapDek(seed.dek, active.material, wrapAlgo);
    if wrapped.Err? { return Err(WrapFailed(wrapped.error)); }
    var created := NewDek(seed, wrapped.value, wrapAlgo, active);
    var ok := repository.UpsertDek(created);
    if !ok { return Err(DekNotStored); }
    return Ok(Acquired(created, seed.dek, true));
  }

  // ----- writing --------------------------------------------------------------------------

  datatype StoreError = MatchKeyMissing | DekUnwrapFailed | CryptoFailure | StorageFailure

  // What one call asks for; `matchKey` is the key after stripping.
  datatype PutRequest = PutRequest(
    dataset: string, matchKey: string, secrets: seq<(string, string)>, run: Option<string>,
    now: int, provider: Provider, seed: Seed)
  {
    function ScopeOf(field: string): Scope {
      Scope(dataset, field, Sha256(dataset, field, matchKey), RunSlot(run))
    }

    function RowOf(i: nat, a: Acquired, keyVersion: string, cipherAlgo: string): SecretRow
      requires i < |secrets|
    {
      SecretRow(0, matchKey, run, Token(secrets[i].1, a.dek), cipherAlgo, keyVersion, a.record.version, now)
    }
  }

  function PutError(e: DekError): StoreError {
    match e
    case WrapFailed(_) => CryptoFailure
    case UnwrapFailed(NoKeyFits) => DekUnwrapFailed
    case UnwrapFailed(BadKey) => CryptoFailure
    case DekNotStored => StorageFailure
  }

  function WriteSecrets(st: State, q: PutRequest, a: Acquired, keyVersion: string, cipherAlgo: string, n: nat): State
    requires n <= |q.secrets|
  {
    if n == 0 then st else
      WithSecret(WriteSecrets(st, q, a, keyVersion, cipherAlgo, n - 1),
                 q.ScopeOf(q.secrets[n - 1].0), q.RowOf(n - 1, a, keyVersion, cipherAlgo))
  }

  // The store after a put, or why there is none.
  ghost function PutOutcome(st: State, q: PutRequest, cfg: Settings, budget: nat): Result<State, StoreError> {
    if q.secrets == [] then Ok(st)
    else if q.matchKey == "" then Err(MatchKeyMissing)
    else if q.provider.Locked? then Err(CryptoFailure)
    else
      match Acquire(st, q.provider.active, q.provider.keys, cfg.wrapAlgo, q.seed, budget)
      case Err(e) => Err(PutError(e))
      case Ok(a) =>
        if cfg.cipherAlgo != FERNET_V1 then Err(CryptoFailure)
        else if budget < |q.secrets| + if a.wrote then 1 else 0 then Err(StorageFailure)
        else Ok(WriteSecrets(AfterAcquire(st, a), q, a, q.provider.active.version, cfg.cipherAlgo, |q.secrets|))
  }

  class SecretVaultWriteService {
    const repository: VaultRepository
    const settings: Settings

    constructor (repository: VaultRepository, settings: Settings)
      ensures this.repository == repository && this.settings == settings
    {
      this.repository, this.settings := repository, settings;
    }

    // All or nothing: a put that fails leaves the store as it was.
    method PutMany(dataset: string, matchKey: string, secrets: seq<(string, string)>, run: Option<string>,
        now: int, provider: Provider, seed: Seed) returns (r: Result<(), StoreError>)
      requires AtMostOneActive(repository.state)
      modifies repository
      ensures var q := PutRequest(dataset, Strip(matchKey), secrets, run, now, provider, seed);
        match PutOutcome(old(repository.state), q, settings, old(repository.writesLeft))
        case Ok(after) => r == Ok(()) && repository.state == after
        case Err(e) => r == Err(e) && repository.state == old(repository.state)
    {
      if secrets == [] { return Ok(()); }
      var normalizedKey := Strip(matchKey);
      if normalizedKey == "" { return Err(MatchKeyMissing); }
      var before := repository.state;  // the transaction's savepoint
      r := PutInTransaction(PutRequest(dataset, normalizedKey, secrets, run, now, provider, seed));
      if r.Err? {
        repository.state := before;
      }
    }

    method PutInTransaction(q: PutRequest) returns (r: Result<(), StoreError>)
      requires AtMostOneActive(repository.state) && q.secrets != [] && q.matchKey != ""
      modifies repository
      ensures var outcome := PutOutcome(old(repository.state), q, settings, old(repository.writesLeft));
        match outcome
        case Ok(after) => r == Ok(()) && repository.state == after
        case Err(e) => r == Err(e)
    {
      if q.provider.Locked? { return Err(CryptoFailure); }
      var active := q.provider.active;
      var acquired := EnsureActiveDek(repository, active, q.provider.keys, settings.wrapAlgo, q.seed);
      if acquired.Err? { return Err(PutError(acquired.error)); }
      var a := acquired.value;
      ghost var start := repository.state;
      ghost var budget := repository.writesLeft;
      for i := 0 to |q.secrets|
        invariant i > 0 ==> settings.cipherAlgo == FERNET_V1
        invariant i <= budget && repository.writesLeft == budget - i
        invariant repository.state == WriteSecrets(start, q, a, active.version, settings.cipherAlgo, i)
      {
        var ciphertext := Encrypt(q.secrets[i].1, a.dek, settings.cipherAlgo);
        if ciphertext.Err? { return Err(CryptoFailure); }
        var row := SecretRow(
          0, q.matchKey, q.run, ciphertext.value, settings.cipherAlgo, active.version, a.record.version, q.now);
        var ok := repository.UpsertSecret(q.ScopeOf(q.secrets[i].0), row);
        if !ok { return Err(StorageFailure); }
      }
      return Ok(());
    }
  }

  // ----- reading --------------------------------------------------------------------------

  datatype ReadError = DekNotFound | KeyConfigProblem | NotDecrypted | NotIntact

  // What a source reference holds under "match_key".
  datatype RawKey = NoReference | NotText | Text(value: string)

  // Only a non-blank textual match key locates a secret.
  function NormalizeSourceRef(raw: RawKey): (r: Option<string>)
    ensures r.Some? <==> raw.Text? && !Blank(raw.value)
    ensures r.Some? ==> r.value == Strip(raw.value) && Strip(r.value) == r.value
  {
    if raw.Text? && Strip(raw.value) != "" then
      StripIdempotent(raw.value);
      Some(Strip(raw.value))
    else None
  }

  function OpenRow(st: State, keys: seq<MasterKey>, row: SecretRow): Result<string, ReadError> {
    if row.dekVersion !in st.deks then Err(DekNotFound)
    else
      var record := st.deks[row.dekVersion];
      match Unwrap(keys, record.wrapKeyVersion, record.wrapped, record.wrapAlgo)
      case Err(BadKey) => Err(KeyConfigProblem)
      case Err(NoKeyFits) => Err(NotDecrypted)
      case Ok(dek) =>
        match Decrypt(row.ciphertext, dek, row.cipherAlgo)
        case Ok(plaintext) => Ok(plaintext)
        case Err(Decryption) => Err(NotDecrypted)
        case Err(_) => Err(NotIntact)
  }

  // What a found row (or none) reads as under a provider.
  function ReadRow(st: State, provider: Provider, row: Option<SecretRow>): Result<Option<string>, ReadError> {
    match row
    case None => Ok(None)
    case Some(found) =>
      if found.dekVersion !in st.deks then Err(DekNotFound)
      else if provider.Locked? then Err(KeyConfigProblem)
      else
        match OpenRow(st, provider.keys, found)
        case Ok(plaintext) => Ok(Some(plaintext))
        case Err(e) => Err(e)
  }

  // No row of the field carries the match key or its locator.
  ghost predicate NoRows(st: State, dataset: string, field: string, matchKey: string) {
    forall s :: s in st.secrets && s.dataset == dataset && s.field == field ==>
      st.secrets[s].matchKey != matchKey && s.locator != Sha256(dataset, field, matchKey)
  }

  lemma NothingFound(st: State, dataset: string, field: string, matchKey: string, r: Option<SecretRow>)
    requires IsCrossRun(st, dataset, field, matchKey, r)
    ensures r.None? <==> NoRows(st, dataset, field, matchKey)
  {
    var keyed, located := KeyRows(st, dataset, field, matchKey),
      LocatorRows(st, dataset, field, Sha256(dataset, field, matchKey));
    forall s | s in st.secrets && s.dataset == dataset && s.field == field
      ensures st.secrets[s].matchKey == matchKey <==> s in keyed
      ensures s.locator == Sha256(dataset, field, matchKey) <==> s in located
    {}
    if r.None? { assert keyed == {} && located == {}; }
  }

  class SecretVaultReadService {
    const repository: VaultRepository
    const provider: Provider
    const defaultRun: Option<string>

    constructor (repository: VaultRepository, provider: Provider, defaultRun: Option<string>)
      ensures this.repository == repository && this.provider == provider && this.defaultRun == defaultRun
    {
      this.repository, this.provider, this.defaultRun := repository, provider, defaultRun;
    }

    function EffectiveRun(run: Option<string>): Option<string> {
      if run.Some? then run else defaultRun
    }

    method GetSecret(dataset: string, field: string, sourceRef: RawKey, run: Option<string>)
      returns (r: Result<Option<string>, ReadError>)
      ensures NormalizeSourceRef(sourceRef).None? ==> r == Ok(None)
      ensures NormalizeSourceRef(sourceRef).Some? ==>
        var matchKey := NormalizeSourceRef(sourceRef).value;
        (r == Ok(None) <==> match repository.lookup
          case ByRun =>
            RunScoped(repository.state, dataset, field, matchKey, if run.Some? then run else defaultRun).None?
          case ByMatchKey => NoRows(repository.state, dataset, field, matchKey))
      ensures NormalizeSourceRef(sourceRef).Some? && repository.lookup == ByRun ==>
        r == ReadRow(repository.state, provider,
          RunScoped(repository.state, dataset, field, NormalizeSourceRef(sourceRef).value,
            if run.Some? then run else defaultRun))
      ensures NormalizeSourceRef(sourceRef).Some? && repository.lookup == ByMatchKey ==>
        exists row :: IsCrossRun(repository.state, dataset, field, NormalizeSourceRef(sourceRef).value, row)
          && r == ReadRow(repository.state, provider, row)
    {
      var matchKey := NormalizeSourceRef(sourceRef);
      if matchKey.None? { return Ok(None); }
      var row := repository.GetSecret(dataset, field, matchKey.value, EffectiveRun(run));
      if repository.lookup == ByMatchKey { NothingFound(repository.state, dataset, field, matchKey.value, row); }
      r := Hydrate(row);
    }

    method Hydrate(row: Option<SecretRow>) returns (r: Result<Option<string>, ReadError>)
      ensures r == ReadRow(repository.state, provider, row)
      ensures r == Ok(None) <==> row.None?
    {
      if row.None? { return Ok(None); }
      var found := row.value;
      if found.dekVersion !in repository.state.deks { return Err(DekNotFound); }
      if provider.Locked? { return Err(KeyConfigProblem); }
      var record := repository.state.deks[found.dekVersion];
      var dek := UnwrapUnder(provider.keys, record.wrapKeyVersion, record.wrapped, record.wrapAlgo);
      match dek
      case Err(BadKey) => return Err(KeyConfigProblem);
      case Err(NoKeyFits) => return Err(NotDecrypted);
      case Ok(plainDek) =>
        match Decrypt(found.ciphertext, plainDek, found.cipherAlgo)
        case Ok(plaintext) => return Ok(Some(plaintext));
        case Err(Decryption) => return Err(NotDecrypted);
        case Err(_) => return Err(NotIntact);
    }
  }

  // ----- the startup guard ----------------------------------------------------------------

  datatype GuardError =
    | GuardKeyConfig
    | UninitializedReadonly
    | ProbeCorrupted(reason: string)
    | KeyValidation(reason: string)
    | StorageReadonly

  datatype ReadyRequest = ReadyRequest(provider: Provider, readonlyStorage: bool, seed: Seed)

  function ValidateProbe(probe: Probe, cfg: Settings): Result<(), GuardError> {
    if probe.name != cfg.probeName then Err(ProbeCorrupted("probe_name_mismatch"))
    else if probe.cipherAlgo == "" then Err(ProbeCorrupted("probe_cipher_algo_missing"))
    else if probe.keyVersion == "" then Err(ProbeCorrupted("probe_key_version_missing"))
    else if probe.dekVersion == "" then Err(ProbeCorrupted("probe_dek_version_missing"))
    else if probe.ciphertext == BadToken("") then Err(ProbeCorrupted("probe_ciphertext_missing"))
    else Ok(())
  }

  function VerifyProbe(st: State, probe: Probe, keys: seq<MasterKey>, cfg: Settings): Result<(), GuardError> {
    if probe.dekVersion !in st.deks then Err(ProbeCorrupted("probe_dek_missing"))
    else
      var record := st.deks[probe.dekVersion];
      match Unwrap(keys, record.wrapKeyVersion, record.wrapped, record.wrapAlgo)
      case Err(BadKey) => Err(GuardKeyConfig)
      case Err(NoKeyFits) => Err(KeyValidation("dek_unwrap_failed"))
      case Ok(dek) =>
        match Decrypt(probe.ciphertext, dek, probe.cipherAlgo)
        case Err(Decryption) => Err(KeyValidation("probe_decrypt_failed"))
        case Err(_) => Err(ProbeCorrupted("probe_ciphertext_corrupted"))
        case Ok(plaintext) =>
          if plaintext != cfg.probePayload then Err(ProbeCorrupted("probe_payload_mismatch")) else Ok(())
  }

  function CheckProbe(st: State, probe: Probe, keys: seq<MasterKey>, cfg: Settings): Result<(), GuardError> {
    var valid := ValidateProbe(probe, cfg);
    if valid.Err? then valid else VerifyProbe(st, probe, keys, cfg)
  }

  function GuardDekError(e: DekError): GuardError {
    match e
    case WrapFailed(KeyConfig) => GuardKeyConfig
    case WrapFailed(_) => ProbeCorrupted("dek_wrap_failed")
    case UnwrapFailed(BadKey) => GuardKeyConfig
    case UnwrapFailed(NoKeyFits) => KeyValidation("dek_unwrap_failed")
    case DekNotStored => ProbeCorrupted("dek_write_failed")
  }

  // The probe entry is there and the keyring opens it to the expected payload.
  predicate Ready(st: State, keys: seq<MasterKey>, cfg: Settings) {
    cfg.probeName in st.probes && CheckProbe(st, st.probes[cfg.probeName], keys, cfg).Ok?
  }

  datatype ReadyOutcome = ReadyOutcome(result: Result<(), GuardError>, state: State)

  function NewProbe(cfg: Settings, a: Acquired, active: MasterKey): Probe {
    Probe(cfg.probeName, Token(cfg.probePayload, a.dek), cfg.cipherAlgo, active.version, a.record.version)
  }

  // Creating the probe is not a transaction: a data key stored on the way stays.
  ghost function CreateProbeOutcome(st: State, q: ReadyRequest, cfg: Settings, budget: nat): ReadyOutcome
    requires q.provider.Unlocked?
  {
    match Acquire(st, q.provider.active, q.provider.keys, cfg.wrapAlgo, q.seed, budget)
    case Err(e) => ReadyOutcome(Err(GuardDekError(e)), st)
    case Ok(a) =>
      var keyed := AfterAcquire(st, a);
      if cfg.cipherAlgo != FERNET_V1 then ReadyOutcome(Err(ProbeCorrupted("probe_encrypt_failed")), keyed)
      else if budget == (if a.wrote then 1 else 0) then ReadyOutcome(Err(ProbeCorrupted("probe_write_failed")), keyed)
      else ReadyOutcome(Ok(()), WithProbe(keyed, NewProbe(cfg, a, q.provider.active)))
  }

  ghost function EnsureReadyOutcome(st: State, q: ReadyRequest, cfg: Settings, budget: nat): ReadyOutcome {
    if q.provider.Locked? then ReadyOutcome(Err(GuardKeyConfig), st)
    else if cfg.probeName !in st.probes && q.readonlyStorage then ReadyOutcome(Err(UninitializedReadonly), st)
    else
      var created := if cfg.probeName in st.probes then ReadyOutcome(Ok(()), st)
        else CreateProbeOutcome(st, q, cfg, budget);
      if created.result.Err? || cfg.probeName !in created.state.probes then created
      else
        var checked := CheckProbe(created.state, created.state.probes[cfg.probeName], q.provider.keys, cfg);
        ReadyOutcome(
          if checked.Err? then checked
          else if q.readonlyStorage && cfg.strictReadonly then Err(StorageReadonly)
          else Ok(()),
          created.state)
  }

  class VaultStartupGuard {
    const repository: VaultRepository
    const settings: Settings

    constructor (repository: VaultRepository, settings: Settings)
      ensures this.repository == repository && this.settings == settings
    {
      this.repository, this.settings := repository, settings;
    }

    method EnsureReady(q: ReadyRequest) returns (r: Result<(), GuardError>)
      requires AtMostOneActive(repository.state)
      modifies repository
      ensures ReadyOutcome(r, repository.state)
        == EnsureReadyOutcome(old(repository.state), q, settings, old(repository.writesLeft))
      ensures settings.probeName in old(repository.state.probes) ==> repository.writesLeft == old(repository.writesLeft)
    {
      if q.provider.Locked? { return Err(GuardKeyConfig); }
      if settings.probeName !in repository.state.probes {
        if q.readonlyStorage { return Err(UninitializedReadonly); }
        r := CreateProbe(q);
        if r.Err? { return; }
      }
      var probe := repository.state.probes[settings.probeName];
      r := ValidateProbe(probe, settings);
      if r.Err? { return; }
      r := VerifyStored(probe, q.provider.keys);
      if r.Err? { return; }
      if q.readonlyStorage && settings.strictReadonly { return Err(StorageReadonly); }
    }

    method CreateProbe(q: ReadyRequest) returns (r: Result<(), GuardError>)
      requires AtMostOneActive(repository.state) && q.provider.Unlocked?
      modifies repository
      ensures ReadyOutcome(r, repository.state)
        == CreateProbeOutcome(old(repository.state), q, settings, old(repository.writesLeft))
      ensures r.Ok? ==> settings.probeName in repository.state.probes
    {
      var active := q.provider.active;
      var acquired := EnsureActiveDek(repository, active, q.provider.keys, settings.wrapAlgo, q.seed);
      if acquired.Err? { return Err(GuardDekError(acquired.error)); }
      var ciphertext := Encrypt(settings.probePayload, acquired.value.dek, settings.cipherAlgo);
      if ciphertext.Err? { return Err(ProbeCorrupted("probe_encrypt_failed")); }
      var probe := Probe(settings.probeName, ciphertext.value, settings.cipherAlgo, active.version,
        acquired.value.record.version);
      var ok := repository.UpsertProbe(probe);
      if !ok { return Err(ProbeCorrupted("probe_write_failed")); }
      return Ok(());
    }

    method VerifyStored(probe: Probe, keys: seq<MasterKey>) returns (r: Result<(), GuardError>)
      ensures r == VerifyProbe(repository.state, probe, keys, settings)
    {
      if probe.dekVersion !in repository.state.deks { return Err(ProbeCorrupted("probe_dek_missing")); }
      var record := repository.state.deks[probe.dekVersion];
      var dek := UnwrapUnder(keys, record.wrapKeyVersion, record.wrapped, record.wrapAlgo);
      match dek
      case Err(BadKey) => return Err(GuardKeyConfig);
      case Err(NoKeyFits) => return Err(KeyValidation("dek_unwrap_failed"));
      case Ok(plainDek) =>
        match Decrypt(probe.ciphertext, plainDek, probe.cipherAlgo)
        case Err(Decryption) => return Err(KeyValidation("probe_decrypt_failed"));
        case Err(_) => return Err(ProbeCorrupted("probe_ciphertext_corrupted"));
        case Ok(plaintext) =>
          if plaintext != settings.probePayload { return Err(ProbeCorrupted("probe_payload_mismatch")); }
          return Ok(());
    }
  }
}
