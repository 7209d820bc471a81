// Envelope encryption, read symbolically: a token records the key it was made
// with, opens under that key alone, and reveals what was put in.
// Source: connector/domain/ports/secrets/cipher.py, key_provider.py and
// connector/infra/secrets/fernet_envelope_cipher.py
module VaultCrypto {
  import opened Basics

  const FERNET_V1 := "FERNET_V1"

  datatype Material = Fernet(bits: int) | Malformed(text: string)

  datatype MasterKey = MasterKey(version: string, material: Material)

  datatype Dek = Dek(bits: int)

  datatype Wrapped = WrapToken(dek: Dek, under: Material) | BadWrap(text: string)

  datatype Ciphertext = Token(plaintext: string, dek: Dek) | BadToken(text: string)

  datatype CryptoError = KeyConfig | Decryption | Integrity

  // ----- the cipher port -----------------------------------------------------------

  function WrapDek(dek: Dek, key: Material, algo: string): Result<Wrapped, CryptoError> {
    if algo != FERNET_V1 then Err(Integrity)
    else if key.Malformed? then Err(KeyConfig)
    else Ok(WrapToken(dek, key))
  }

  function UnwrapDek(w: Wrapped, key: Material, algo: string): Result<Dek, CryptoError> {
    if algo != FERNET_V1 || w.BadWrap? then Err(Integrity)
    else if key.Malformed? then Err(KeyConfig)
    else if w.under == key then Ok(w.dek)
    else Err(Decryption)
  }

  function Encrypt(plaintext: string, dek: Dek, algo: string): Result<Ciphertext, CryptoError> {
    if algo != FERNET_V1 then Err(Integrity) else Ok(Token(plaintext, dek))
  }

  function Decrypt(c: Ciphertext, dek: Dek, algo: string): Result<string, CryptoError> {
    if algo != FERNET_V1 || c.BadToken? then Err(Integrity)
    else if c.dek == dek then Ok(c.plaintext)
    else Err(Decryption)
  }

  // ----- the keyring ------------------------------------------------------------------

  // A locked provider cannot name any key.
  datatype Provider = Locked | Unlocked(active: MasterKey, keys: seq<MasterKey>)

  // The last key of a version, as in a dict filled in ring order.
  function FindKey(keys: seq<MasterKey>, version: string): Option<MasterKey> {
    if keys == [] then None
    else if Last(keys).version == version then Some(Last(keys))
    else FindKey(keys[..|keys| - 1], version)
  }

  function Without(keys: seq<MasterKey>, version: string): seq<MasterKey> {
    if keys == [] then []
    else (if keys[0].version == version then [] else [keys[0]]) + Without(keys[1..], version)
  }

  // The keys in the order they are tried: the hinted one first, and no other of
  // its version.
  function Candidates(keys: seq<MasterKey>, hint: string): seq<MasterKey> {
    match FindKey(keys, hint)
    case None => keys
    case Some(k) => [k] + Without(keys, k.version)
  }

  method CandidateMasterKeys(keys: seq<MasterKey>, hint: string) returns (candidates: seq<MasterKey>)
    ensures candidates == Candidates(keys, hint)
  {
    candidates := [];
    var hinted := FindKey(keys, hint);
    if hinted.Some? {
      candidates := candidates + [hinted.value];
    }
    for i := 0 to |keys|
      invariant hinted.None? ==> candidates == keys[..i]
      invariant hinted.Some? ==> candidates == [hinted.value] + Without(keys[..i], hinted.value.version)
    {
      if hinted.Some? { WithoutAppend(keys[..i], keys[i], hinted.value.version); }
      assert keys[..i + 1] == keys[..i] + [keys[i]];
      if !(hinted.Some? && keys[i].version == hinted.value.version) {
        candidates := candidates + [keys[i]];
      }
    }
    assert keys[..|keys|] == keys;
  }

  lemma {:induction false} WithoutAppend(keys: seq<MasterKey>, k: MasterKey, version: string)
    ensures Without(keys + [k], version) == Without(keys, version) + if k.version == version then [] else [k]
  {
    if keys == [] {
      assert keys + [k] == [k];
    } else {
      assert (keys + [k])[1..] == keys[1..] + [k];
      WithoutAppend(keys[1..], k, version);
    }
  }

  // ----- unwrapping under a keyring -------------------------------------------------------

  datatype UnwrapError = BadKey | NoKeyFits

  // The first candidate that opens the token wins; one with malformed material
  // aborts the search, one that merely does not fit is passed over.
  function TryKeys(candidates: seq<MasterKey>, w: Wrapped, algo: string): Result<Dek, UnwrapError> {
    if candidates == [] then Err(NoKeyFits)
    else
      match UnwrapDek(w, candidates[0].material, algo)
      case Ok(d) => Ok(d)
      case Err(KeyConfig) => Err(BadKey)
      case Err(_) => TryKeys(candidates[1..], w, algo)
  }

  function Unwrap(keys: seq<MasterKey>, hint: string, w: Wrapped, algo: string): Result<Dek, UnwrapError> {
    TryKeys(Candidates(keys, hint), w, algo)
  }

  method UnwrapUnder(keys: seq<MasterKey>, hint: string, w: Wrapped, algo: string) returns (r: Result<Dek, UnwrapError>)
    ensures r == Unwrap(keys, hint, w, algo)
  {
    var candidates := CandidateMasterKeys(keys, hint);
    for i := 0 to |candidates|
      invariant TryKeys(candidates[i..], w, algo) == TryKeys(candidates, w, algo)
    {
      assert candidates[i..][1..] == candidates[i + 1..];
      match UnwrapDek(w, candidates[i].material, algo)
      case Ok(d) => return Ok(d);
      case Err(KeyConfig) => return Err(BadKey);
      case Err(_) =>
    }
    return Err(NoKeyFits);
  }

  // ----- laws -----------------------------------------------------------------------------

  lemma EnvelopeLaws(p: string, d: Dek, other: Dek, m: int, n: int)
    ensures WrapDek(d, Fernet(m), FERNET_V1).Ok?
      && UnwrapDek(WrapDek(d, Fernet(m), FERNET_V1).value, Fernet(m), FERNET_V1) == Ok(d)
    ensures m != n ==> UnwrapDek(WrapDek(d, Fernet(m), FERNET_V1).value, Fernet(n), FERNET_V1).Err?
    ensures Encrypt(p, d, FERNET_V1).Ok? && Decrypt(Encrypt(p, d, FERNET_V1).value, d, FERNET_V1) == Ok(p)
    ensures d != other ==> Decrypt(Encrypt(p, d, FERNET_V1).value, other, FERNET_V1).Err?
  {}

  // Well-formed keys with distinct versions.
  ghost predicate SoundRing(keys: seq<MasterKey>) {
    (forall i :: 0 <= i < |keys| ==> keys[i].material.Fernet?)
    && forall i, j :: 0 <= i < j < |keys| ==> keys[i].version != keys[j].version
  }

  lemma {:induction false} FindKeyMeans(keys: seq<MasterKey>, version: string)
    ensures FindKey(keys, version).Some? ==>
      FindKey(keys, version).value in keys && FindKey(keys, version).value.version == version
    ensures FindKey(keys, version).None? ==> forall k :: k in keys ==> k.version != version
  {
    if keys == [] {
    } else {
      FindKeyMeans(keys[..|keys| - 1], version);
      assert forall k :: k in keys ==> k in keys[..|keys| - 1] || k == Last(keys);
    }
  }

  // Of several keys of a version the last one is found.
  lemma {:induction false} FindKeyIsLast(keys: seq<MasterKey>, version: string, i: nat)
    requires i < |keys| && keys[i].version == version
    requires forall j :: i < j < |keys| ==> keys[j].version != version
    ensures FindKey(keys, version) == Some(keys[i])
  {
    if i < |keys| - 1 { FindKeyIsLast(keys[..|keys| - 1], version, i); }
  }

  lemma {:induction false} InWithout(keys: seq<MasterKey>, version: string, k: MasterKey)
    ensures k in Without(keys, version) <==> k in keys && k.version != version
  {
    if keys == [] {
    } else {
      InWithout(keys[1..], version, k);
      assert k in keys <==> k == keys[0] || k in keys[1..];
    }
  }

  // With distinct versions the candidates are exactly the keys.
  lemma CandidatesAreKeys(keys: seq<MasterKey>, hint: string, k: MasterKey)
    requires SoundRing(keys)
    ensures k in Candidates(keys, hint) <==> k in keys
  {
    FindKeyMeans(keys, hint);
    if FindKey(keys, hint).Some? {
      var h := FindKey(keys, hint).value;
      InWithout(keys, h.version, k);
      if k in keys && k.version == h.version {
        var i :| 0 <= i < |keys| && keys[i] == k;
        var j :| 0 <= j < |keys| && keys[j] == h;
      }
    }
  }

  lemma {:induction false} SomeCandidateOpens(candidates: seq<MasterKey>, d: Dek, m: Material)
    requires forall k :: k in candidates ==> k.material.Fernet?
    requires exists k :: k in candidates && k.material == m
    ensures TryKeys(candidates, WrapToken(d, m), FERNET_V1) == Ok(d)
  {
    if candidates[0].material != m {
      var k :| k in candidates && k.material == m;
      assert k in candidates[1..];
      SomeCandidateOpens(candidates[1..], d, m);
    }
  }

  // A sound ring that holds the wrapping key opens the token, whatever the hint.
  lemma SoundRingOpens(keys: seq<MasterKey>, hint: string, d: Dek, k: MasterKey)
    requires SoundRing(keys) && k in keys
    ensures Unwrap(keys, hint, WrapToken(d, k.material), FERNET_V1) == Ok(d)
  {
    var candidates := Candidates(keys, hint);
    CandidatesAreKeys(keys, hint, k);
    forall c | c in candidates ensures c.material.Fernet? {
      CandidatesAreKeys(keys, hint, c);
      var i :| 0 <= i < |keys| && keys[i] == c;
    }
    SomeCandidateOpens(candidates, d, k.material);
  }

  // Some key opens what is wrapped under `m`, and no malformed key stands before it.
  ghost predicate FitsFirst(candidates: seq<MasterKey>, m: Material) {
    exists i :: FitsAt(candidates, m, i)
  }

  ghost predicate FitsAt(candidates: seq<MasterKey>, m: Material, i: int) {
    0 <= i < |candidates| && candidates[i].material == m && forall j :: 0 <= j <= i ==> candidates[j].material.Fernet?
  }

  lemma FitsFirstCons(k: MasterKey, rest: seq<MasterKey>, m: Material)
    ensures FitsFirst([k] + rest, m) <==> k.material.Fernet? && (k.material == m || FitsFirst(rest, m))
  {
    var all := [k] + rest;
    if i :| FitsAt(all, m, i) {
      assert all[0].material.Fernet?;
      if i > 0 {
        assert forall j :: 0 <= j <= i - 1 ==> rest[j] == all[j + 1];
        assert FitsAt(rest, m, i - 1);
      }
    }
    if k.material.Fernet? && k.material == m { assert FitsAt(all, m, 0); }
    if k.material.Fernet? && FitsFirst(rest, m) {
      var i :| FitsAt(rest, m, i);
      assert FitsAt(all, m, i + 1);
    }
  }

  // The search succeeds exactly when a fitting key comes before any malformed one.
  lemma {:induction false} TryKeysOpenIff(candidates: seq<MasterKey>, w: Wrapped, algo: string)
    ensures TryKeys(candidates, w, algo).Ok?
      <==> algo == FERNET_V1 && w.WrapToken? && FitsFirst(candidates, w.under)
    ensures TryKeys(candidates, w, algo).Ok? ==> TryKeys(candidates, w, algo) == Ok(w.dek)
  {
    if candidates == [] {
    } else {
      var rest := candidates[1..];
      assert candidates == [candidates[0]] + rest;
      TryKeysOpenIff(rest, w, algo);
      if w.WrapToken? { FitsFirstCons(candidates[0], rest, w.under); }
    }
  }

  // Sound growth keeps every unwrap: whatever a ring opens, a sound ring holding
  // all its keys opens to the same.
  lemma GrowthKeepsUnwrap(keys: seq<MasterKey>, grown: seq<MasterKey>, hint: string, w: Wrapped, algo: string)
    requires Unwrap(keys, hint, w, algo).Ok?
    requires SoundRing(grown) && forall k :: k in keys ==> k in grown
    ensures Unwrap(grown, hint, w, algo) == Unwrap(keys, hint, w, algo)
  {
    var candidates := Candidates(keys, hint);
    TryKeysOpenIff(candidates, w, algo);
    var i :| FitsAt(candidates, w.under, i);
    var k := candidates[i];
    assert k in candidates;
    FindKeyMeans(keys, hint);
    if FindKey(keys, hint).Some? { InWithout(keys, FindKey(keys, hint).value.version, k); }
    SoundRingOpens(grown, hint, w.dek, k);
  }

  // ----- when a ring opens a token --------------------------------------------------------

  // Without a key of the hinted version, a fitting key comes before any malformed one. With
  // one, its last such key is well-formed and fits, or leaves it to the other versions.
  ghost predicate RingFits(ring: seq<MasterKey>, hint: string, m: Material) {
    match FindKey(ring, hint)
    case None => FitsFirst(ring, m)
    case Some(k) => k.material.Fernet? && (k.material == m || FitsFirst(Without(ring, hint), m))
  }

  // Exactly when an unwrap succeeds, for any ring, hint, token and algorithm.
  lemma UnwrapOpensIff(ring: seq<MasterKey>, hint: string, w: Wrapped, algo: string)
    ensures Unwrap(ring, hint, w, algo).Ok? <==> algo == FERNET_V1 && w.WrapToken? && RingFits(ring, hint, w.under)
    ensures Unwrap(ring, hint, w, algo).Ok? ==> Unwrap(ring, hint, w, algo) == Ok(w.dek)
  {
    FindKeyMeans(ring, hint);
    TryKeysOpenIff(Candidates(ring, hint), w, algo);
    if FindKey(ring, hint).Some? && w.WrapToken? {
      FitsFirstCons(FindKey(ring, hint).value, Without(ring, hint), w.under);
    }
  }

  // ----- why a search fails ---------------------------------------------------------------

  // A malformed key is met, and no key before it fits.
  ghost predicate StopsFirst(candidates: seq<MasterKey>, m: Material) {
    exists i :: StopsAt(candidates, m, i)
  }

  ghost predicate StopsAt(candidates: seq<MasterKey>, m: Material, i: int) {
    0 <= i < |candidates| && candidates[i].material.Malformed?
    && forall j :: 0 <= j < i ==> candidates[j].material.Fernet? && candidates[j].material != m
  }

  ghost predicate NoneFits(candidates: seq<MasterKey>, m: Material) {
    forall i :: 0 <= i < |candidates| ==> candidates[i].material.Fernet? && candidates[i].material != m
  }

  lemma StopsFirstCons(k: MasterKey, rest: seq<MasterKey>, m: Material)
    ensures StopsFirst([k] + rest, m) <==> k.material.Malformed? || (k.material != m && StopsFirst(rest, m))
  {
    var all := [k] + rest;
    if i :| StopsAt(all, m, i) {
      if i > 0 {
        assert all[0].material != m;
        assert forall j :: 0 <= j <= i - 1 ==> rest[j] == all[j + 1];
        assert StopsAt(rest, m, i - 1);
      }
    }
    if k.material.Malformed? { assert StopsAt(all, m, 0); }
    if k.material.Fernet? && k.material != m && StopsFirst(rest, m) {
      var i :| StopsAt(rest, m, i);
      assert StopsAt(all, m, i + 1);
    }
  }

  lemma NoneFitsCons(k: MasterKey, rest: seq<MasterKey>, m: Material)
    ensures NoneFits([k] + rest, m) <==> k.material.Fernet? && k.material != m && NoneFits(rest, m)
  {
    var all := [k] + rest;
    if NoneFits(all, m) {
      assert all[0] == k;
      forall i | 0 <= i < |rest| ensures rest[i].material.Fernet? && rest[i].material != m {
        assert all[i + 1] == rest[i];
      }
    }
  }

  // It aborts exactly at a malformed key before any that fits, and comes back empty-handed
  // exactly when every key is well-formed and none fits, or the token opens under no key.
  lemma {:induction false} TryKeysFailIff(candidates: seq<MasterKey>, w: Wrapped, algo: string)
    ensures TryKeys(candidates, w, algo) == Err(BadKey)
      <==> algo == FERNET_V1 && w.WrapToken? && StopsFirst(candidates, w.under)
    ensures TryKeys(candidates, w, algo) == Err(NoKeyFits)
      <==> algo != FERNET_V1 || w.BadWrap? || NoneFits(candidates, w.under)
  {
    if candidates == [] {
    } else {
      var rest := candidates[1..];
      assert candidates == [candidates[0]] + rest;
      TryKeysFailIff(rest, w, algo);
      if w.WrapToken? {
        StopsFirstCons(candidates[0], rest, w.under);
        NoneFitsCons(candidates[0], rest, w.under);
      }
    }
  }

  // The key of the hinted version is tried first, and no other of its version.
  ghost predicate RingStops(ring: seq<MasterKey>, hint: string, m: Material) {
    match FindKey(ring, hint)
    case None => StopsFirst(ring, m)
    case Some(k) => k.material.Malformed? || (k.material != m && StopsFirst(Without(ring, hint), m))
  }

  ghost predicate RingMisses(ring: seq<MasterKey>, hint: string, m: Material) {
    match FindKey(ring, hint)
    case None => NoneFits(ring, m)
    case Some(k) => k.material.Fernet? && k.material != m && NoneFits(Without(ring, hint), m)
  }

  lemma UnwrapFailsIff(ring: seq<MasterKey>, hint: string, w: Wrapped, algo: string)
    ensures Unwrap(ring, hint, w, algo) == Err(BadKey)
      <==> algo == FERNET_V1 && w.WrapToken? && RingStops(ring, hint, w.under)
    ensures Unwrap(ring, hint, w, algo) == Err(NoKeyFits)
      <==> algo != FERNET_V1 || w.BadWrap? || RingMisses(ring, hint, w.under)
  {
    FindKeyMeans(ring, hint);
    TryKeysFailIff(Candidates(ring, hint), w, algo);
    if FindKey(ring, hint).Some? && w.WrapToken? {
      StopsFirstCons(FindKey(ring, hint).value, Without(ring, hint), w.under);
      NoneFitsCons(FindKey(ring, hint).value, Without(ring, hint), w.under);
    }
  }

  // So a change of the ring keeps an unwrap that worked exactly when the new ring fits.
  lemma ChangeKeepsIff(ring: seq<MasterKey>, changed: seq<MasterKey>, hint: string, w: Wrapped, algo: string)
    requires Unwrap(ring, hint, w, algo).Ok?
    ensures w.WrapToken?
    ensures Unwrap(changed, hint, w, algo) == Unwrap(ring, hint, w, algo) <==> RingFits(changed, hint, w.under)
  {
    UnwrapOpensIff(ring, hint, w, algo);
    UnwrapOpensIff(changed, hint, w, algo);
  }

  // ----- adding keys to a ring -----------------------------------------------------------

  lemma {:induction false} FindAppend(a: seq<MasterKey>, b: seq<MasterKey>, version: string)
    ensures FindKey(a + b, version) == if FindKey(b, version).Some? then FindKey(b, version) else FindKey(a, version)
  {
    if b == [] {
      assert a + b == a;
    } else {
      assert (a + b)[..|a + b| - 1] == a + b[..|b| - 1];
      FindAppend(a, b[..|b| - 1], version);
    }
  }

  lemma {:induction false} WithoutSplit(a: seq<MasterKey>, b: seq<MasterKey>, version: string)
    ensures Without(a + b, version) == Without(a, version) + Without(b, version)
  {
    if a == [] {
      assert a + b == b;
    } else {
      assert (a + b)[1..] == a[1..] + b;
      WithoutSplit(a[1..], b, version);
    }
  }

  lemma {:induction false} WithoutNone(a: seq<MasterKey>, version: string)
    requires forall k :: k in a ==> k.version != version
    ensures Without(a, version) == a
  {
    if a == [] {
    } else {
      WithoutNone(a[1..], version);
    }
  }

  lemma FitsFirstAppend(a: seq<MasterKey>, b: seq<MasterKey>, m: Material)
    requires FitsFirst(a, m)
    ensures FitsFirst(a + b, m)
  {
    var i :| FitsAt(a, m, i);
    assert FitsAt(a + b, m, i);
  }

  ghost predicate AllFernet(keys: seq<MasterKey>) {
    forall i :: 0 <= i < |keys| ==> keys[i].material.Fernet?
  }

  // In front of keys among which one fits, others are harmless exactly when none is
  // malformed, or one of them fits before the first malformed one.
  ghost predicate Harmless(front: seq<MasterKey>, m: Material) {
    AllFernet(front) || FitsFirst(front, m)
  }

  lemma FitBehindIsHarmless(front: seq<MasterKey>, keys: seq<MasterKey>, m: Material, i: int)
    requires FitsAt(front + keys, m, i)
    ensures Harmless(front, m)
  {
    var all := front + keys;
    forall j | 0 <= j < |front| && j <= i ensures front[j].material.Fernet? { assert front[j] == all[j]; }
    if i < |front| { assert FitsAt(front, m, i); }
  }

  lemma FitsBehindIff(front: seq<MasterKey>, keys: seq<MasterKey>, m: Material)
    requires FitsFirst(keys, m)
    ensures FitsFirst(front + keys, m) <==> Harmless(front, m)
  {
    if FitsFirst(front, m) {
      FitsFirstAppend(front, keys, m);
    } else if AllFernet(front) {
      var i :| FitsAt(keys, m, i);
      assert FitsAt(front + keys, m, |front| + i);
    } else if FitsFirst(front + keys, m) {
      var i :| FitsAt(front + keys, m, i);
      FitBehindIsHarmless(front, keys, m, i);
    }
  }

  // Appending: the old keys stay in front, so only a key of the hinted version matters.
  lemma AppendKeepsIff(keys: seq<MasterKey>, extra: seq<MasterKey>, hint: string, w: Wrapped, algo: string)
    requires Unwrap(keys, hint, w, algo).Ok?
    ensures w.WrapToken?
    ensures Unwrap(keys + extra, hint, w, algo) == Unwrap(keys, hint, w, algo)
      <==> match FindKey(extra, hint)
           case None => true
           case Some(k) =>
             k.material.Fernet? && (k.material == w.under || FitsFirst(Without(keys + extra, hint), w.under))
  {
    ChangeKeepsIff(keys, keys + extra, hint, w, algo);
    UnwrapOpensIff(keys, hint, w, algo);
    FindAppend(keys, extra, hint);
    if FindKey(extra, hint).None? {
      if FindKey(keys, hint).None? {
        FitsFirstAppend(keys, extra, w.under);
      } else if FitsFirst(Without(keys, hint), w.under) {
        WithoutSplit(keys, extra, hint);
        FitsFirstAppend(Without(keys, hint), Without(extra, hint), w.under);
      }
    }
  }

  // New keys on both sides whose versions are new to the ring. One of the hinted version
  // must be well-formed; and unless the first key tried fits, those in front of the old
  // keys must be harmless.
  lemma NewVersionsKeepIff(front: seq<MasterKey>, keys: seq<MasterKey>, back: seq<MasterKey>, hint: string, w: Wrapped,
      algo: string)
    requires Unwrap(keys, hint, w, algo).Ok?
    requires forall k, e :: k in keys && (e in front || e in back) ==> k.version != e.version
    ensures w.WrapToken?
    ensures
      var first := FindKey(front + keys + back, hint);
      Unwrap(front + keys + back, hint, w, algo) == Unwrap(keys, hint, w, algo)
      <==>
        && (first.Some? ==> first.value.material.Fernet?)
        && ((first.Some? && first.value.material == w.under) || Harmless(Without(front, hint), w.under))
  {
    var all := front + keys + back;
    ChangeKeepsIff(keys, all, hint, w, algo);
    UnwrapOpensIff(keys, hint, w, algo);
    FindAppend(front + keys, back, hint);
    FindAppend(front, keys, hint);
    FindKeyMeans(keys, hint);
    FindKeyMeans(front, hint);
    FindKeyMeans(back, hint);
    WithoutSplit(front + keys, back, hint);
    WithoutSplit(front, keys, hint);
    var others := Without(keys, hint);
    if FindKey(keys, hint).None? { WithoutNone(keys, hint); }
    if FindKey(all, hint).None? {
      WithoutNone(front, hint);
      WithoutNone(all, hint);
    }
    if FitsFirst(others, w.under) {
      FitsFirstAppend(others, Without(back, hint), w.under);
      ConcatAssoc(Without(front, hint), others, Without(back, hint));
      FitsBehindIff(Without(front, hint), others + Without(back, hint), w.under);
    }
  }

  // Appended keys whose versions are new to the ring break it only by a malformed key of
  // the hinted version.
  lemma AppendNewVersionsIff(keys: seq<MasterKey>, extra: seq<MasterKey>, hint: string, w: Wrapped, algo: string)
    requires Unwrap(keys, hint, w, algo).Ok?
    requires forall k, e :: k in keys && e in extra ==> k.version != e.version
    ensures Unwrap(keys + extra, hint, w, algo) == Unwrap(keys, hint, w, algo)
      <==> FindKey(extra, hint).None? || FindKey(extra, hint).value.material.Fernet?
  {
    AppendKeepsIff(keys, extra, hint, w, algo);
    FindKeyMeans(extra, hint);
    FindKeyMeans(keys, hint);
    if FindKey(extra, hint).Some? {
      UnwrapOpensIff(keys, hint, w, algo);
      WithoutSplit(keys, extra, hint);
      WithoutNone(keys, hint);
      FitsFirstAppend(keys, Without(extra, hint), w.under);
    }
  }

  // A second key of the hinted version hides the first, which alone opens the token.
  lemma RepeatedVersionBreaks(d: Dek)
    ensures
      var ring, extra := [MasterKey("v1", Fernet(1))], [MasterKey("v1", Fernet(2))];
      var w := WrapToken(d, Fernet(1));
      Unwrap(ring, "v1", w, FERNET_V1) == Ok(d) && Unwrap(ring + extra, "v1", w, FERNET_V1) == Err(NoKeyFits)
  {
    var ring, extra := [MasterKey("v1", Fernet(1))], [MasterKey("v1", Fernet(2))];
    assert ring + extra == [MasterKey("v1", Fernet(1)), MasterKey("v1", Fernet(2))];
    assert (ring + extra)[1..] == extra && extra[1..] == [] && ring[1..] == [];
    assert Without(ring, "v1") == [] && Without(extra, "v1") == [] && Without(ring + extra, "v1") == [];
    assert FindKey(ring + extra, "v1") == Some(extra[0]);
    assert Candidates(ring, "v1") == ring;
    assert Candidates(ring + extra, "v1") == extra;
    var w := WrapToken(d, Fernet(1));
    assert TryKeys(ring, w, FERNET_V1) == Ok(d);
    assert TryKeys(extra, w, FERNET_V1) == TryKeys(extra[1..], w, FERNET_V1);
  }

  // A malformed key of the hinted version stops the search before the key that fits.
  lemma MalformedKeyBreaks(d: Dek)
    ensures
      var ring, extra := [MasterKey("v1", Fernet(1))], [MasterKey("v2", Malformed(""))];
      var w := WrapToken(d, Fernet(1));
      Unwrap(ring, "v2", w, FERNET_V1) == Ok(d) && Unwrap(ring + extra, "v2", w, FERNET_V1) == Err(BadKey)
  {
    var ring, extra := [MasterKey("v1", Fernet(1))], [MasterKey("v2", Malformed(""))];
    assert ring[1..] == [] && ring[..0] == [];
    assert Candidates(ring, "v2") == ring;
    FindAppend(ring, extra, "v2");
    assert Candidates(ring + extra, "v2")[0] == extra[0];
  }

  // A malformed key put in front stops the search too, though no key has the hinted version.
  lemma FrontKeyBreaks(d: Dek)
    ensures
      var ring, front := [MasterKey("v1", Fernet(1))], [MasterKey("v2", Malformed(""))];
      var w := WrapToken(d, Fernet(1));
      Unwrap(ring, "v0", w, FERNET_V1) == Ok(d) && Unwrap(front + ring, "v0", w, FERNET_V1) == Err(BadKey)
  {
    var ring, front := [MasterKey("v1", Fernet(1))], [MasterKey("v2", Malformed(""))];
    FindAppend(front, ring, "v0");
    assert ring[..0] == [] && front[..0] == [];
    assert Candidates(ring, "v0") == ring && Candidates(front + ring, "v0") == front + ring;
    assert (front + ring)[0] == front[0];
  }
}
