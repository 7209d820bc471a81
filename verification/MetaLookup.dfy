// Reading a dataset's facts the way the cache repository does, with a LIKE pattern over
// the stored keys, and when this gives another dataset's facts.
// Source: connector/infra/cache/repository/cache_repository.py
module MetaLookup {
  import opened Basics
  import opened CacheStore

  // ----- LIKE ---------------------------------------------------------------------------

  // LIKE ignores the case of ASCII letters.
  function Lower(c: char): char {
    if 'A' <= c <= 'Z' then (c as int + 32) as char else c
  }

  predicate Like(pattern: string, text: string)
    decreases |pattern| + |text|
  {
    if pattern == "" then text == ""
    else if pattern[0] == '%' then Like(pattern[1..], text) || (text != "" && Like(pattern, text[1..]))
    else text != "" && (pattern[0] == '_' || Lower(pattern[0]) == Lower(text[0])) && Like(pattern[1..], text[1..])
  }

  // Names a LIKE pattern cannot tell apart: `_` stands for any character.
  predicate Alike(pattern: string, name: string) {
    |pattern| == |name|
    && forall i :: 0 <= i < |pattern| ==> pattern[i] == '_' || Lower(pattern[i]) == Lower(name[i])
  }

  predicate IsDatasetName(s: string) {
    '.' !in s && '%' !in s
  }

  // The key a fact is stored under, and the pattern a dataset's facts are read with.
  function FullKey(dataset: string, key: string): string {
    dataset + "." + key
  }

  function KeyPattern(dataset: string): string {
    dataset + ".%"
  }

  lemma {:induction false} PercentMatches(text: string)
    ensures Like("%", text)
    decreases |text|
  {
    assert "%"[1..] == "";
    if text == "" {
    } else {
      PercentMatches(text[1..]);
    }
  }

  lemma DotPercent(text: string)
    ensures Like(".%", text) <==> text != "" && text[0] == '.'
  {
    assert ".%"[1..] == "%";
    if text != "" { PercentMatches(text[1..]); }
  }

  lemma AlikeCons(p: string, n: string)
    requires p != "" && n != ""
    ensures Alike(p, n) <==> (p[0] == '_' || Lower(p[0]) == Lower(n[0])) && Alike(p[1..], n[1..])
  {
    if Alike(p[1..], n[1..]) {
      assert forall i :: 1 <= i < |p| ==> p[i] == p[1..][i - 1] && n[i] == n[1..][i - 1];
    }
  }

  lemma NoDotLike(pattern: string, text: string)
    requires '%' !in pattern && '.' !in text
    ensures !Like(KeyPattern(pattern), text)
    decreases |pattern|
  {
    if pattern == "" {
      assert KeyPattern(pattern) == ".%";
      DotPercent(text);
      assert text != "" ==> text[0] in text;
    } else if text != "" {
      assert KeyPattern(pattern)[1..] == KeyPattern(pattern[1..]);
      NoDotLike(pattern[1..], text[1..]);
    }
  }

  // The pattern of one dataset selects a fact of another exactly when their names are alike.
  lemma {:induction false} SelectsIff(d: string, e: string, key: string)
    requires '%' !in d && '.' !in d && '.' !in e && '.' !in key
    ensures Like(KeyPattern(d), FullKey(e, key)) <==> Alike(d, e)
    decreases |d|
  {
    if d == "" {
      assert KeyPattern(d) == ".%";
      DotPercent(FullKey(e, key));
      assert e != "" ==> FullKey(e, key)[0] == e[0] && e[0] in e;
    } else if e == "" {
      assert KeyPattern(d)[1..] == KeyPattern(d[1..]) && FullKey(e, key)[1..] == key;
      NoDotLike(d[1..], key);
    } else {
      assert KeyPattern(d)[1..] == KeyPattern(d[1..]) && FullKey(e, key)[1..] == FullKey(e[1..], key);
      SelectsIff(d[1..], e[1..], key);
      AlikeCons(d, e);
    }
  }

  // An ASCII letter stands for itself in either case.
  lemma CaseIgnored(d: string, e: string, i: nat)
    requires i < |d| == |e| && 'A' <= d[i] <= 'Z' && e == d[i := (d[i] as int + 32) as char]
    ensures Alike(d, e) && Alike(e, d)
  {
    assert !('A' <= e[i] <= 'Z');
  }

  // ----- the facts a lookup returns --------------------------------------------------------

  // Names as the registry has them, and keys without dots.
  ghost predicate PlainNames(c: Cache) {
    forall e :: e in c.meta ==> IsDatasetName(e) && forall k :: k in c.meta[e] ==> '.' !in k
  }

  ghost predicate Selects(c: Cache, d: string, e: string, k: string) {
    e in c.meta && k in c.meta[e] && Like(KeyPattern(d), FullKey(e, k))
  }

  // One value for each key selected; where several datasets answer, any of theirs, since
  // the query gives no order.
  ghost predicate IsLookup(c: Cache, d: string, facts: map<string, Fact>) {
    && (forall e, k :: Selects(c, d, e, k) ==> k in facts)
    && (forall k :: k in facts ==> exists e :: Selects(c, d, e, k) && facts[k] == c.meta[e][k])
  }

  // No dataset of a like name knows anything else.
  ghost predicate NoRival(c: Cache, d: string) {
    forall e, k :: e in c.meta && Alike(d, e) && k in c.meta[e] ==> k in MetaOf(c, d) && MetaOf(c, d)[k] == c.meta[e][k]
  }

  lemma AlikeItself(d: string)
    ensures Alike(d, d)
  {}

  lemma SelectsAlike(c: Cache, d: string, e: string, k: string)
    requires PlainNames(c) && IsDatasetName(d)
    ensures Selects(c, d, e, k) <==> e in c.meta && k in c.meta[e] && Alike(d, e)
  {
    if e in c.meta && k in c.meta[e] { SelectsIff(d, e, k); }
  }

  // A lookup is sure to give the dataset's own facts exactly when no dataset of a like
  // name knows anything else.
  lemma LookupExactIff(c: Cache, d: string)
    requires PlainNames(c) && IsDatasetName(d)
    ensures (forall facts :: IsLookup(c, d, facts) ==> facts == MetaOf(c, d)) <==> NoRival(c, d)
  {
    AlikeItself(d);
    forall e, k ensures Selects(c, d, e, k) <==> e in c.meta && k in c.meta[e] && Alike(d, e) {
      SelectsAlike(c, d, e, k);
    }
    if NoRival(c, d) {
      forall facts | IsLookup(c, d, facts) ensures facts == MetaOf(c, d) { LookupIsOwn(c, d, facts); }
    } else {
      var e, k :| Selects(c, d, e, k) && !(k in MetaOf(c, d) && MetaOf(c, d)[k] == c.meta[e][k]);
      var facts := RivalLookup(c, d, e, k);
      assert facts != MetaOf(c, d);
    }
  }

  lemma LookupIsOwn(c: Cache, d: string, facts: map<string, Fact>)
    requires PlainNames(c) && IsDatasetName(d) && NoRival(c, d) && IsLookup(c, d, facts)
    ensures facts == MetaOf(c, d)
  {
    AlikeItself(d);
    forall k | k in MetaOf(c, d) ensures k in facts { SelectsAlike(c, d, d, k); }
    forall k | k in facts ensures k in MetaOf(c, d) && facts[k] == MetaOf(c, d)[k] {
      var e :| Selects(c, d, e, k) && facts[k] == c.meta[e][k];
      SelectsAlike(c, d, e, k);
    }
  }

  // Some lookup answers with this dataset's value.
  lemma RivalLookup(c: Cache, d: string, e: string, k: string) returns (facts: map<string, Fact>)
    requires Selects(c, d, e, k)
    ensures IsLookup(c, d, facts) && k in facts && facts[k] == c.meta[e][k]
  {
    var any := AnyLookup(c, d, c.meta.Keys);
    facts := any[k := c.meta[e][k]];
    forall j | j in facts ensures exists x :: Selects(c, d, x, j) && facts[j] == c.meta[x][j] {
      if j == k { assert Selects(c, d, e, j); }
    }
  }

  ghost predicate IsLookupAmong(c: Cache, d: string, among: set<string>, facts: map<string, Fact>) {
    && (forall e, k :: e in among && Selects(c, d, e, k) ==> k in facts)
    && (forall k :: k in facts ==> exists e :: Selects(c, d, e, k) && facts[k] == c.meta[e][k])
  }

  lemma {:induction false} AnyLookup(c: Cache, d: string, among: set<string>) returns (facts: map<string, Fact>)
    requires among <= c.meta.Keys
    ensures IsLookupAmong(c, d, among, facts)
  {
    facts := map[];
    if among != {} {
      var e :| e in among;
      var rest := AnyLookup(c, d, among - {e});
      facts := rest + map k | k in c.meta[e] && Selects(c, d, e, k) :: c.meta[e][k];
      forall k | k in facts ensures exists x :: Selects(c, d, x, k) && facts[k] == c.meta[x][k] {
        if k in c.meta[e] && Selects(c, d, e, k) {
          assert facts[k] == c.meta[e][k];
        } else {
          assert k in rest && facts[k] == rest[k];
        }
      }
    }
  }

  // ----- drift as the lookup shows it --------------------------------------------------------

  predicate ShowsDrift(facts: map<string, Fact>, expected: string) {
    expected != "" && "schema_hash" in facts && facts["schema_hash"] != Text("")
      && facts["schema_hash"] != Text(expected)
  }
}
