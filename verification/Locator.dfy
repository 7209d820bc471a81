// Canonical source references: empty parts dropped at every depth, keys in order.
// Source: connector/domain/secrets/secret_locator_service.py
module Locator {
  import opened Basics
  import opened PyText

  // A source reference as it arrives: a dict is a list of entries in some order.
  // Numbers and booleans are atoms.
  datatype Value = Null | Text(text: string) | Atom(repr: string) | List(items: seq<Value>) | Dict(entries: seq<Entry>)

  datatype Entry = Entry(key: string, value: Value)

  predicate IsEmpty(v: Value) {
    v == Null || v == Text("") || v == List([]) || v == Dict([])
  }

  function KeysOf(es: seq<Entry>): (r: set<string>)
    ensures forall e :: e in es ==> e.key in r
    ensures forall k :: k in r ==> exists e :: e in es && e.key == k
  {
    set e | e in es :: e.key
  }

  function Keys(v: Value): set<string>
    requires v.Dict?
  {
    KeysOf(v.entries)
  }

  function IndexOf(es: seq<Entry>, k: string): (i: nat)
    requires k in KeysOf(es)
    ensures i < |es| && es[i].key == k
  {
    if es[0].key == k then 0 else 1 + IndexOf(es[1..], k)
  }

  // `payload[key]`
  function Lookup(v: Value, k: string): (r: Value)
    requires v.Dict? && k in Keys(v)
    ensures r < v && Entry(k, r) in v.entries
  {
    v.entries[IndexOf(v.entries, k)].value
  }

  // ----- entries in key order -------------------------------------------------------------

  ghost predicate Before(r: seq<Entry>, i: int, j: int) {
    0 <= i < j < |r| && StrLe(r[i].key, r[j].key) && r[i].key != r[j].key
  }

  ghost predicate InOrder(r: seq<Entry>) {
    forall i, j {:trigger Before(r, i, j)} :: 0 <= i < j < |r| ==> Before(r, i, j)
  }

  // The entries of a map in the order of their keys.
  ghost predicate IsArranged(r: seq<Entry>, m: map<string, Value>) {
    InOrder(r) && KeysOf(r) == m.Keys && forall e :: e in r && e.key in m ==> e.value == m[e.key]
  }

  ghost function KeyList(es: seq<Entry>): (r: seq<string>)
    ensures |r| == |es|
  {
    seq(|es|, i requires 0 <= i < |es| => es[i].key)
  }

  lemma KeyListAscends(r: seq<Entry>)
    requires InOrder(r)
    ensures Ascending(KeyList(r)) && forall k :: k in KeyList(r) <==> k in KeysOf(r)
  {
    var ks := KeyList(r);
    forall i, j | 0 <= i < j < |ks| ensures StrLe(ks[i], ks[j]) && ks[i] != ks[j] { assert Before(r, i, j); }
    forall k | k in ks ensures k in KeysOf(r) {
      var i :| 0 <= i < |ks| && ks[i] == k;
      assert r[i] in r;
    }
    forall k | k in KeysOf(r) ensures k in ks {
      var e :| e in r && e.key == k;
      var i :| 0 <= i < |r| && r[i] == e;
      assert ks[i] == k;
    }
  }

  lemma ArrangedUnique(a: seq<Entry>, b: seq<Entry>, m: map<string, Value>)
    requires IsArranged(a, m) && IsArranged(b, m)
    ensures a == b
  {
    KeyListAscends(a);
    KeyListAscends(b);
    AscendingUnique(KeyList(a), KeyList(b));
    forall i | 0 <= i < |a| ensures a[i] == b[i] {
      assert KeyList(a)[i] == KeyList(b)[i];
      assert a[i] in a && b[i] in b;
    }
  }

  lemma ArrangeSnoc(r: seq<Entry>, m: map<string, Value>, k: string, v: Value)
    requires IsArranged(r, m) && forall x :: x in m ==> StrLe(x, k) && x != k
    ensures IsArranged(r + [Entry(k, v)], m[k := v])
  {
    var s := r + [Entry(k, v)];
    forall i, j | 0 <= i < j < |s| ensures Before(s, i, j) {
      if j < |r| { assert Before(r, i, j); } else { assert r[i] in r; }
    }
    assert forall e :: e in s <==> e in r || e == Entry(k, v);
  }

  ghost function Restrict(m: map<string, Value>, keys: seq<string>): map<string, Value> {
    map k | k in m && k in keys :: m[k]
  }

  lemma {:induction false} ArrangedExists(m: map<string, Value>, keys: seq<string>)
    requires Ascending(keys) && forall k :: k in keys ==> k in m
    ensures exists r :: IsArranged(r, Restrict(m, keys))
  {
    if keys == [] {
      assert Restrict(m, keys) == map[];
      assert IsArranged([], Restrict(m, keys));
    } else {
      var front, k := keys[..|keys| - 1], Last(keys);
      assert keys == front + [k];
      AscendingSnoc(front, k);
      ArrangedExists(m, front);
      var r :| IsArranged(r, Restrict(m, front));
      ArrangeSnoc(r, Restrict(m, front), k, m[k]);
      assert Restrict(m, front)[k := m[k]] == Restrict(m, keys);
    }
  }

  lemma AscendingSnoc(front: seq<string>, k: string)
    requires Ascending(front + [k])
    ensures Ascending(front) && forall x :: x in front ==> StrLe(x, k) && x != k
  {
    var keys := front + [k];
    assert forall i :: 0 <= i < |front| ==> keys[i] == front[i];
    forall x | x in front ensures StrLe(x, k) && x != k {
      var i :| 0 <= i < |front| && front[i] == x;
      assert keys[i] == x && keys[|front|] == k;
      assert StrLe(keys[i], keys[|front|]) && keys[i] != keys[|front|];
    }
  }

  ghost function Arrange(m: map<string, Value>): (r: seq<Entry>)
    ensures IsArranged(r, m)
  {
    ArrangedExists(m, SortedSet(m.Keys));
    assert Restrict(m, SortedSet(m.Keys)) == m;
    var r :| IsArranged(r, m);
    r
  }

  // ----- what a reference says, whatever its order and its empty parts ---------------------

  datatype Tree = Leaf(value: Value) | Items(trees: seq<Tree>) | Fields(fields: map<string, Tree>)

  // None for a value that says nothing.
  ghost function View(v: Value): Option<Tree>
    decreases v, 1
  {
    match v
    case Null => None
    case Text(s) => if s == "" then None else Some(Leaf(v))
    case Atom(_) => Some(Leaf(v))
    case List(items) => var ts := ViewItems(v, |items|); if ts == [] then None else Some(Items(ts))
    case Dict(_) => var m := ViewFields(v); if m == map[] then None else Some(Fields(m))
  }

  ghost function ViewItems(v: Value, n: nat): seq<Tree>
    requires v.List? && n <= |v.items|
    decreases v, 0, n
  {
    if n == 0 then [] else
      ViewItems(v, n - 1) + match View(v.items[n - 1]) case Some(t) => [t] case None => []
  }

  ghost function ViewFields(v: Value): map<string, Tree>
    requires v.Dict?
    decreases v, 0
  {
    map k | k in Keys(v) && View(Lookup(v, k)).Some? :: View(Lookup(v, k)).value
  }

  // The canonical value that says a given thing.
  ghost function Render(t: Tree): Value
    decreases t, 1
  {
    match t
    case Leaf(v) => v
    case Items(ts) => List(seq(|ts|, i requires 0 <= i < |ts| => Render(ts[i])))
    case Fields(m) => Dict(Arrange(Rendered(t)))
  }

  ghost function Rendered(t: Tree): (r: map<string, Value>)
    requires t.Fields?
    ensures r.Keys == t.fields.Keys
    decreases t, 0
  {
    map k | k in t.fields :: Render(t.fields[k])
  }

  // No tree says nothing.
  ghost predicate Proper(t: Tree) {
    match t
    case Leaf(v) => v.Atom? || (v.Text? && v.text != "")
    case Items(ts) => ts != [] && forall x :: x in ts ==> Proper(x)
    case Fields(m) => m != map[] && forall k :: k in m ==> Proper(m[k])
  }

  // ----- normalisation ------------------------------------------------------------------------

  ghost function Norm(v: Value): Value {
    match View(v)
    case Some(t) => Render(t)
    case None => match v case List(_) => List([]) case Dict(_) => Dict([]) case _ => v
  }

  // What the top mapping comes to; it may be empty.
  ghost function Form(v: Value): seq<Entry>
    requires v.Dict?
  {
    Arrange(Rendered(Fields(ViewFields(v))))
  }

  lemma ArrangeEmpty(m: map<string, Value>)
    ensures Arrange(m) == [] <==> m == map[]
  {
    var r := Arrange(m);
    if m != map[] {
      var k :| k in m;
      assert k in KeysOf(r);
    }
    if r != [] { assert r[0].key in KeysOf(r); }
  }

  lemma RenderNotEmpty(t: Tree)
    requires Proper(t)
    ensures !IsEmpty(Render(t))
  {
    if t.Fields? {
      ArrangeEmpty(Rendered(t));
      assert Rendered(t).Keys != {};
    }
  }

  lemma DictNorm(v: Value)
    requires v.Dict?
    ensures Norm(v) == Dict(Form(v))
  {
    ArrangeEmpty(Rendered(Fields(ViewFields(v))));
    assert ViewFields(v) == map[] ==> Rendered(Fields(ViewFields(v))).Keys == {};
  }

  lemma {:induction false} ViewProper(v: Value)
    requires View(v).Some?
    ensures Proper(View(v).value)
    decreases v, 1
  {
    match v
    case List(items) => ViewItemsProper(v, |items|);
    case Dict(_) =>
      forall k | k in ViewFields(v) ensures Proper(ViewFields(v)[k]) { ViewProper(Lookup(v, k)); }
    case _ =>
  }

  lemma {:induction false} ViewItemsProper(v: Value, n: nat)
    requires v.List? && n <= |v.items|
    ensures forall t :: t in ViewItems(v, n) ==> Proper(t)
    decreases v, 0, n
  {
    if n == 0 {
    } else {
      if View(v.items[n - 1]).Some? { ViewProper(v.items[n - 1]); }
      ViewItemsProper(v, n - 1);
    }
  }

  lemma NormEmptyIff(v: Value)
    ensures IsEmpty(Norm(v)) <==> View(v) == None
  {
    if View(v).Some? {
      ViewProper(v);
      RenderNotEmpty(View(v).value);
    }
  }

  // The rendered fields under these keys.
  ghost function Part(v: Value, keys: seq<string>): map<string, Value>
    requires v.Dict?
  {
    map k | k in keys && k in ViewFields(v) :: Render(ViewFields(v)[k])
  }

  method NormalizeMapping(payload: Value) returns (normalized: seq<Entry>)
    requires payload.Dict?
    ensures normalized == Form(payload)
    decreases payload, 0
  {
    var keys := Sorted(Keys(payload));
    normalized := [];
    for i := 0 to |keys|
      invariant IsArranged(normalized, Part(payload, keys[..i]))
    {
      var value := NormalizeValue(Lookup(payload, keys[i]));
      NormEmptyIff(Lookup(payload, keys[i]));
      PartSnoc(payload, keys, i, normalized);
      if !IsEmpty(value) { normalized := normalized + [Entry(keys[i], value)]; }
    }
    assert keys[..|keys|] == keys;
    assert Part(payload, keys) == Rendered(Fields(ViewFields(payload)));
    ArrangedUnique(normalized, Form(payload), Rendered(Fields(ViewFields(payload))));
  }

  lemma PartGrows(v: Value, front: seq<string>, k: string)
    requires v.Dict? && k in Keys(v)
    ensures Part(v, front + [k]) ==
      if View(Lookup(v, k)).Some? then Part(v, front)[k := Norm(Lookup(v, k))] else Part(v, front)
  {}

  lemma PartSnoc(v: Value, keys: seq<string>, i: nat, r: seq<Entry>)
    requires v.Dict? && i < |keys| && Ascending(keys) && keys[i] in Keys(v) && IsArranged(r, Part(v, keys[..i]))
    ensures
      var x := Lookup(v, keys[i]);
      IsArranged(if View(x).Some? then r + [Entry(keys[i], Norm(x))] else r, Part(v, keys[..i + 1]))
  {
    var front, k := keys[..i], keys[i];
    assert keys[..i + 1] == front + [k];
    PrefixAscends(keys, i + 1);
    AscendingSnoc(front, k);
    PartGrows(v, front, k);
    if View(Lookup(v, k)).Some? { ArrangeSnoc(r, Part(v, front), k, Norm(Lookup(v, k))); }
  }

  lemma PrefixAscends(keys: seq<string>, n: nat)
    requires Ascending(keys) && n <= |keys|
    ensures Ascending(keys[..n])
  {
    var front := keys[..n];
    forall i, j | 0 <= i < j < |front| ensures StrLe(front[i], front[j]) && front[i] != front[j] {
      assert front[i] == keys[i] && front[j] == keys[j];
    }
  }

  method NormalizeValue(value: Value) returns (r: Value)
    ensures r == Norm(value)
    decreases value, 1
  {
    match value
    case Dict(_) =>
      var entries := NormalizeMapping(value);
      DictNorm(value);
      return Dict(entries);
    case List(items) =>
      var kept := [];
      for i := 0 to |items|
        invariant |kept| == |ViewItems(value, i)|
        invariant forall j :: 0 <= j < |kept| ==> kept[j] == Render(ViewItems(value, i)[j])
      {
        var item := NormalizeValue(items[i]);
        NormEmptyIff(items[i]);
        if !IsEmpty(item) { kept := kept + [item]; }
      }
      return List(kept);
    case _ => return value;
  }

  // ----- canonical values ---------------------------------------------------------------------

  // No empty part at any depth below the value itself, and keys in order.
  ghost predicate IsCanonical(v: Value) {
    match v
    case List(items) => forall x :: x in items ==> SaysSomething(x) && IsCanonical(x)
    case Dict(entries) =>
      InOrder(entries) && forall e :: e in entries ==> SaysSomething(e.value) && IsCanonical(e.value)
    case _ => true
  }

  predicate SaysSomething(v: Value) {
    match v
    case Null => false
    case Text(s) => s != ""
    case Atom(_) => true
    case List(items) => |items| > 0
    case Dict(entries) => |entries| > 0
  }

  lemma {:induction false} RenderIsCanonical(t: Tree)
    requires Proper(t)
    ensures IsCanonical(Render(t))
  {
    match t
    case Leaf(_) =>
    case Items(ts) =>
      forall x | x in Render(t).items ensures SaysSomething(x) && IsCanonical(x) {
        var i :| 0 <= i < |ts| && Render(ts[i]) == x;
        assert ts[i] in ts;
        RenderNotEmpty(ts[i]);
        RenderIsCanonical(ts[i]);
      }
    case Fields(m) =>
      forall e | e in Render(t).entries ensures SaysSomething(e.value) && IsCanonical(e.value) {
        RenderedEntry(t, e);
        RenderNotEmpty(m[e.key]);
        RenderIsCanonical(m[e.key]);
      }
  }

  lemma RenderedEntry(t: Tree, e: Entry)
    requires t.Fields? && e in Arrange(Rendered(t))
    ensures e.key in t.fields && e.value == Render(t.fields[e.key])
  {
    assert e.key in KeysOf(Arrange(Rendered(t)));
  }

  // A canonical value is the one its content renders to.
  lemma {:induction false} CanonicalRenders(v: Value)
    requires IsCanonical(v)
    ensures Norm(v) == v
    decreases v, 1
  {
    match v
    case List(items) => ItemsRender(v, |items|);
    case Dict(entries) =>
      DictNorm(v);
      forall k | k in Keys(v) ensures k in ViewFields(v) && Render(ViewFields(v)[k]) == Lookup(v, k) {
        var x := Lookup(v, k);
        CanonicalRenders(x);
        NormEmptyIff(x);
      }
      forall e | e in entries ensures Rendered(Fields(ViewFields(v)))[e.key] == e.value {
        InOrderLookup(v, e);
      }
      ArrangedUnique(entries, Form(v), Rendered(Fields(ViewFields(v))));
    case _ =>
  }

  lemma InOrderLookup(v: Value, e: Entry)
    requires v.Dict? && InOrder(v.entries) && e in v.entries
    ensures Lookup(v, e.key) == e.value
  {
    var i :| 0 <= i < |v.entries| && v.entries[i] == e;
    var j :| 0 <= j < |v.entries| && v.entries[j] == Entry(e.key, Lookup(v, e.key));
    assert i < j ==> Before(v.entries, i, j);
    assert j < i ==> Before(v.entries, j, i);
  }

  lemma {:induction false} ItemRenders(v: Value, i: nat)
    requires v.List? && IsCanonical(v) && i < |v.items|
    ensures View(v.items[i]).Some? && Render(View(v.items[i]).value) == v.items[i]
    decreases v, 0, 0
  {
    var x := v.items[i];
    assert x in v.items;
    CanonicalRenders(x);
    NormEmptyIff(x);
  }

  lemma {:induction false} ItemsRender(v: Value, n: nat)
    requires v.List? && IsCanonical(v) && n <= |v.items|
    ensures |ViewItems(v, n)| == n && forall i :: 0 <= i < n ==> Render(ViewItems(v, n)[i]) == v.items[i]
    decreases v, 0, n + 1
  {
    if n == 0 {
    } else {
      ItemRenders(v, n - 1);
      ItemsRender(v, n - 1);
      ViewItemsSnoc(v, n - 1, View(v.items[n - 1]).value);
    }
  }

  lemma NormIsCanonical(v: Value)
    ensures IsCanonical(Norm(v))
  {
    if View(v).Some? {
      ViewProper(v);
      RenderIsCanonical(View(v).value);
    }
  }

  // Normalising leaves exactly the canonical values alone, and so changes nothing twice.
  lemma FixedIffCanonical(v: Value)
    ensures Norm(v) == v <==> IsCanonical(v)
    ensures Norm(Norm(v)) == Norm(v)
  {
    NormIsCanonical(v);
    CanonicalRenders(Norm(v));
    if IsCanonical(v) { CanonicalRenders(v); }
  }

  // ----- same canonical form, same content -----------------------------------------------------

  // Rendering loses nothing.
  lemma {:induction false} ViewRender(t: Tree)
    requires Proper(t)
    ensures View(Render(t)) == Some(t)
    decreases t, 1
  {
    match t
    case Leaf(_) =>
    case Items(ts) =>
      ViewRenderItems(t, |ts|);
      assert ts[..|ts|] == ts;
    case Fields(m) => ViewRenderFields(t);
  }

  lemma {:induction false} ViewRenderFields(t: Tree)
    requires t.Fields? && forall k :: k in t.fields ==> Proper(t.fields[k])
    ensures ViewFields(Render(t)) == t.fields
    decreases t, 0
  {
    var v := Render(t);
    assert v == Dict(Arrange(Rendered(t)));
    forall k | k in Keys(v) ensures Lookup(v, k) == Render(t.fields[k]) && View(Lookup(v, k)) == Some(t.fields[k]) {
      RenderedEntry(t, Entry(k, Lookup(v, k)));
      ViewRender(t.fields[k]);
    }
  }

  lemma RenderedItem(t: Tree, i: nat)
    requires t.Items? && i < |t.trees|
    ensures |Render(t).items| == |t.trees| && Render(t).items[i] == Render(t.trees[i])
  {}

  lemma ViewItemsSnoc(v: Value, n: nat, x: Tree)
    requires v.List? && n < |v.items| && View(v.items[n]) == Some(x)
    ensures ViewItems(v, n + 1) == ViewItems(v, n) + [x]
  {}

  lemma {:induction false} ViewRenderItems(t: Tree, n: nat)
    requires t.Items? && (forall x :: x in t.trees ==> Proper(x)) && n <= |t.trees|
    ensures ViewItems(Render(t), n) == t.trees[..n]
    decreases t, 0, n
  {
    if n == 0 {
    } else {
      var x := t.trees[n - 1];
      assert x in t.trees;
      ViewRender(x);
      ViewRenderItems(t, n - 1);
      RenderedSnoc(t, n - 1, x);
    }
  }

  lemma RenderedSnoc(t: Tree, n: nat, x: Tree)
    requires t.Items? && n < |t.trees| && t.trees[n] == x && View(Render(x)) == Some(x)
    requires ViewItems(Render(t), n) == t.trees[..n]
    ensures ViewItems(Render(t), n + 1) == t.trees[..n + 1]
  {
    RenderedItem(t, n);
    ViewItemsSnoc(Render(t), n, x);
  }

  // Two references have the same canonical form exactly when they say the same: under
  // each key that says anything, at any depth, the same thing.
  lemma SameFormIffSameFields(a: Value, b: Value)
    requires a.Dict? && b.Dict?
    ensures Form(a) == Form(b) <==> ViewFields(a) == ViewFields(b)
  {
    FormKeepsFields(a);
    FormKeepsFields(b);
  }

  lemma FormKeepsFields(a: Value)
    requires a.Dict?
    ensures ViewFields(Dict(Form(a))) == ViewFields(a)
  {
    forall k | k in ViewFields(a) ensures Proper(ViewFields(a)[k]) { ViewProper(Lookup(a, k)); }
    ViewRenderFields(Fields(ViewFields(a)));
  }

  // ----- what does not change the form ------------------------------------------------------------

  ghost predicate DistinctKeys(es: seq<Entry>) {
    forall d, e :: d in es && e in es && d.key == e.key ==> d == e
  }

  ghost function FieldView(v: Value, k: string): Option<Tree>
    requires v.Dict?
  {
    if k in Keys(v) then View(Lookup(v, k)) else None
  }

  lemma FieldViewOf(v: Value, e: Entry)
    requires v.Dict? && DistinctKeys(v.entries) && e in v.entries
    ensures FieldView(v, e.key) == View(e.value)
  {
    assert Entry(e.key, Lookup(v, e.key)) == e;
  }

  lemma FieldsAgree(v: Value, w: Value)
    requires v.Dict? && w.Dict? && forall k :: FieldView(v, k) == FieldView(w, k)
    ensures ViewFields(v) == ViewFields(w) && Form(v) == Form(w)
  {
    var m, n := ViewFields(v), ViewFields(w);
    forall k ensures (k in m <==> k in n) && (k in m ==> m[k] == n[k]) { assert FieldView(v, k) == FieldView(w, k); }
    assert m == n;
    SameFormIffSameFields(v, w);
  }

  lemma KeyOrderIrrelevant(a: Value, b: Value)
    requires a.Dict? && b.Dict? && DistinctKeys(a.entries)
    requires forall e :: e in a.entries <==> e in b.entries
    ensures Form(a) == Form(b)
  {
    forall k ensures FieldView(a, k) == FieldView(b, k) {
      if k in Keys(a) {
        var e :| e in a.entries && e.key == k;
        FieldViewOf(a, e);
        FieldViewOf(b, e);
      }
    }
    FieldsAgree(a, b);
  }

  // w is v with e in place of whatever v holds under its key.
  lemma WithFields(v: Value, w: Value, e: Entry)
    requires v.Dict? && w.Dict? && DistinctKeys(v.entries)
    requires forall x :: x in w.entries <==> x == e || (x in v.entries && x.key != e.key)
    ensures forall k :: FieldView(w, k) == if k == e.key then View(e.value) else FieldView(v, k)
  {
    forall k ensures FieldView(w, k) == if k == e.key then View(e.value) else FieldView(v, k) {
      if k == e.key {
        FieldViewOf(w, e);
      } else if k in Keys(v) {
        var x :| x in v.entries && x.key == k;
        FieldViewOf(v, x);
        FieldViewOf(w, x);
      }
    }
  }

  function With(v: Value, i: nat, e: Entry): Value
    requires v.Dict? && i <= |v.entries|
  {
    Dict(v.entries[..i] + [e] + v.entries[i..])
  }

  lemma WithMembers(v: Value, i: nat, e: Entry)
    requires v.Dict? && i <= |v.entries|
    ensures forall x :: x in With(v, i, e).entries <==> x in v.entries || x == e
  {
    assert v.entries == v.entries[..i] + v.entries[i..];
  }

  // A new entry whose value says nothing, put anywhere.
  lemma EmptyEntryIrrelevant(v: Value, i: nat, e: Entry)
    requires v.Dict? && DistinctKeys(v.entries) && i <= |v.entries|
    requires e.key !in Keys(v) && IsEmpty(Norm(e.value))
    ensures Form(With(v, i, e)) == Form(v)
  {
    var w := With(v, i, e);
    WithMembers(v, i, e);
    NormEmptyIff(e.value);
    WithFields(v, w, e);
    forall k ensures FieldView(v, k) == FieldView(w, k) {}
    FieldsAgree(v, w);
  }

  lemma ReplacedMembers(v: Value, i: nat, e: Entry)
    requires v.Dict? && DistinctKeys(v.entries) && NoDup(v.entries) && i < |v.entries| && v.entries[i].key == e.key
    ensures forall x :: x in v.entries[i := e] <==> x == e || (x in v.entries && x.key != e.key)
  {
    var es := v.entries[i := e];
    forall x ensures x in es <==> x == e || (x in v.entries && x.key != e.key) {
      if x in es {
        var j :| 0 <= j < |es| && es[j] == x;
        if j != i {
          assert v.entries[i] in v.entries && v.entries[j] in v.entries;
          assert v.entries[i] != v.entries[j];
        }
      }
      if x == e { assert es[i] == x; }
      if x in v.entries && x.key != e.key {
        var j :| 0 <= j < |v.entries| && v.entries[j] == x;
        assert es[j] == x;
      }
    }
  }

  // Changes inside a value count only through what the value says.
  lemma InnerChangeIrrelevant(v: Value, i: nat, inner: Value)
    requires v.Dict? && DistinctKeys(v.entries) && NoDup(v.entries)
    requires i < |v.entries| && View(inner) == View(v.entries[i].value)
    ensures
      var w := Dict(v.entries[i := Entry(v.entries[i].key, inner)]);
      ViewFields(w) == ViewFields(v) && Form(w) == Form(v)
  {
    var e := Entry(v.entries[i].key, inner);
    var w := Dict(v.entries[i := e]);
    ReplacedMembers(v, i, e);
    WithFields(v, w, e);
    assert v.entries[i] in v.entries;
    FieldViewOf(v, v.entries[i]);
    FieldsAgree(v, w);
  }

  lemma {:induction false} ItemChangeIrrelevant(v: Value, i: nat, x: Value, n: nat)
    requires v.List? && i < |v.items| && n <= |v.items| && View(x) == View(v.items[i])
    ensures ViewItems(List(v.items[i := x]), n) == ViewItems(v, n)
  {
    if n == 0 {
    } else {
      ItemChangeIrrelevant(v, i, x, n - 1);
    }
  }

  // ----- changes at any depth ----------------------------------------------------------------------

  // The positions lead from the value through dicts and lists to a part of it.
  ghost predicate HasPart(v: Value, path: seq<nat>) {
    path == [] ||
    match v
    case List(items) => path[0] < |items| && HasPart(items[path[0]], path[1..])
    case Dict(entries) =>
      DistinctKeys(entries) && NoDup(entries) && path[0] < |entries| && HasPart(entries[path[0]].value, path[1..])
    case _ => false
  }

  ghost function PartAt(v: Value, path: seq<nat>): Value
    requires HasPart(v, path)
  {
    if path == [] then v
    else if v.List? then PartAt(v.items[path[0]], path[1..])
    else PartAt(v.entries[path[0]].value, path[1..])
  }

  // The value with another part at that place.
  ghost function PutAt(v: Value, path: seq<nat>, x: Value): Value
    requires HasPart(v, path)
  {
    if path == [] then x
    else
      var i := path[0];
      if v.List? then List(v.items[i := PutAt(v.items[i], path[1..], x)])
      else Dict(v.entries[i := Entry(v.entries[i].key, PutAt(v.entries[i].value, path[1..], x))])
  }

  // Through dicts and lists alike, a part counts only through what it says.
  lemma {:induction false} DeepChangeIrrelevant(v: Value, path: seq<nat>, x: Value)
    requires HasPart(v, path) && View(x) == View(PartAt(v, path))
    ensures View(PutAt(v, path, x)) == View(v)
    decreases |path|
  {
    if path == [] {
    } else {
      var i, rest := path[0], path[1..];
      if v.List? {
        DeepChangeIrrelevant(v.items[i], rest, x);
        ItemChangeIrrelevant(v, i, PutAt(v.items[i], rest, x), |v.items|);
      } else {
        DeepChangeIrrelevant(v.entries[i].value, rest, x);
        InnerChangeIrrelevant(v, i, PutAt(v.entries[i].value, rest, x));
      }
    }
  }

  // Inside a reference, the form is left alone.
  lemma DeepChangeKeepsForm(v: Value, path: seq<nat>, x: Value)
    requires v.Dict? && path != [] && HasPart(v, path) && View(x) == View(PartAt(v, path))
    ensures PutAt(v, path, x).Dict? && Form(PutAt(v, path, x)) == Form(v)
  {
    var i, rest := path[0], path[1..];
    DeepChangeIrrelevant(v.entries[i].value, rest, x);
    InnerChangeIrrelevant(v, i, PutAt(v.entries[i].value, rest, x));
  }

  lemma {:induction false} ViewItemsLocal(v: Value, w: Value, n: nat)
    requires v.List? && w.List? && n <= |v.items| && n <= |w.items| && v.items[..n] == w.items[..n]
    ensures ViewItems(v, n) == ViewItems(w, n)
  {
    if n == 0 {
    } else {
      assert v.items[n - 1] == v.items[..n][n - 1] && w.items[n - 1] == w.items[..n][n - 1];
      assert v.items[..n - 1] == v.items[..n][..n - 1] && w.items[..n - 1] == w.items[..n][..n - 1];
      ViewItemsLocal(v, w, n - 1);
    }
  }

  // An item that normalises to nothing, put anywhere in a list.
  lemma {:induction false} EmptyItemIrrelevant(v: Value, i: nat, x: Value)
    requires v.List? && i <= |v.items| && View(x) == None
    ensures View(List(v.items[..i] + [x] + v.items[i..])) == View(v)
  {
    var w := List(v.items[..i] + [x] + v.items[i..]);
    ViewItemsLocal(v, w, i);
    ViewItemsShifted(v, w, i, |v.items|);
  }

  lemma {:induction false} ViewItemsShifted(v: Value, w: Value, i: nat, n: nat)
    requires v.List? && w.List? && i <= n <= |v.items| && |w.items| == |v.items| + 1
    requires ViewItems(w, i) == ViewItems(v, i) && View(w.items[i]) == None
    requires v.items[i..] == w.items[i + 1..]
    ensures ViewItems(w, n + 1) == ViewItems(v, n)
  {
    if n > i { ViewItemsShifted(v, w, i, n - 1); }
  }

  // ----- what does not matter, at any depth ---------------------------------------------------------

  ghost predicate Reorders(a: Value, b: Value) {
    a.Dict? && b.Dict? && DistinctKeys(a.entries) && forall e :: e in a.entries <==> e in b.entries
  }

  ghost predicate AddsEmptyEntry(a: Value, b: Value, i: nat, e: Entry) {
    && a.Dict? && DistinctKeys(a.entries) && i <= |a.entries| && e.key !in Keys(a)
    && IsEmpty(Norm(e.value)) && b == With(a, i, e)
  }

  ghost predicate AddsEmptyItem(a: Value, b: Value, i: nat, x: Value) {
    a.List? && i <= |a.items| && IsEmpty(Norm(x)) && b == List(a.items[..i] + [x] + a.items[i..])
  }

  ghost predicate SaysNothingNew(a: Value, b: Value) {
    || Reorders(a, b)
    || (exists i, e :: AddsEmptyEntry(a, b, i, e))
    || (exists i, x :: AddsEmptyItem(a, b, i, x))
  }

  // A dict put in another key order, or an entry or item that normalises to nothing put
  // in, at any depth, leaves the form of the reference alone.
  lemma NoiseIrrelevant(v: Value, path: seq<nat>, x: Value)
    requires v.Dict? && HasPart(v, path) && SaysNothingNew(PartAt(v, path), x)
    ensures PutAt(v, path, x).Dict? && Form(PutAt(v, path, x)) == Form(v)
  {
    var part := PartAt(v, path);
    if Reorders(part, x) {
      KeyOrderIrrelevant(part, x);
      SameFormIffSameFields(part, x);
    } else if i, e :| AddsEmptyEntry(part, x, i, e) {
      EmptyEntryIrrelevant(part, i, e);
      SameFormIffSameFields(part, x);
    } else {
      var i, y :| AddsEmptyItem(part, x, i, y);
      NormEmptyIff(y);
      EmptyItemIrrelevant(part, i, y);
    }
    if path != [] {
      DeepChangeKeepsForm(v, path, x);
    }
  }

  // ----- the hashed text ------------------------------------------------------------------------------

  const LOCATOR_VERSION_V1 := "v1"

  datatype Hashing = Hashing(json: seq<Entry> -> string, sha256: string -> string)

  function Payload(version: string, dataset: string, field: string, canonical: string): string {
    version + "|" + dataset + "|" + field + "|" + canonical
  }

  // None where an unknown locator version raises.
  method BuildLocatorHash(h: Hashing, dataset: string, field: string, sourceRef: Option<Value>, version: string)
    returns (r: Option<string>)
    requires sourceRef.Some? ==> sourceRef.value.Dict?
    ensures r.Some? <==> version == LOCATOR_VERSION_V1
    ensures r.Some? ==>
      var ref := if sourceRef.Some? then sourceRef.value else Dict([]);
      r.value == h.sha256("v1" + "|" + dataset + "|" + field + "|" + h.json(Form(ref)))
  {
    if version != LOCATOR_VERSION_V1 { return None; }
    var entries := NormalizeMapping(if sourceRef.Some? then sourceRef.value else Dict([]));
    return Some(h.sha256(Payload(version, dataset, field, h.json(entries))));
  }

  // A text up to its first bar, against one cut at any bar.
  lemma BarCut(a: string, s: string, b: string, t: string) returns (z: string)
    requires '|' !in a && a + "|" + s == b + "|" + t
    ensures (a == b && s == t) || (b == a + "|" + z && s == z + "|" + t)
  {
    z := "";
    var x, y := a + "|" + s, b + "|" + t;
    assert x[|a|] == '|' && x[|a| + 1..] == s && y[|b|] == '|' && y[|b| + 1..] == t;
    assert forall k :: 0 <= k < |a| ==> x[k] == a[k];
    assert |a| <= |b|;
    if |b| == |a| {
      assert a == x[..|a|] && b == y[..|b|];
    } else {
      z := b[|a| + 1..];
      assert b == y[..|b|] && b[|a|] == '|' && b[..|a|] == a;
      assert s == y[|a| + 1..] == z + "|" + t;
    }
  }

  // A scanner of JSON text: bars and backslashes stand in strings only, and every
  // string is closed.
  datatype Scan = Outside | Inside | Escaped | Broken

  function Next(state: Scan, c: char): Scan {
    match state
    case Outside => if c == '"' then Inside else if c == '|' || c == '\\' then Broken else Outside
    case Inside => if c == '"' then Outside else if c == '\\' then Escaped else Inside
    case Escaped => Inside
    case Broken => Broken
  }

  function ScanFrom(state: Scan, s: string): Scan
    decreases |s|
  {
    if s == "" then state else ScanFrom(Next(state, s[0]), s[1..])
  }

  predicate IsJson(s: string) {
    ScanFrom(Outside, s) == Outside
  }

  lemma {:induction false} ScanConcat(state: Scan, a: string, b: string)
    ensures ScanFrom(state, a + b) == ScanFrom(ScanFrom(state, a), b)
    decreases |a|
  {
    if a == "" {
      assert a + b == b;
    } else {
      assert (a + b)[1..] == a[1..] + b;
      ScanConcat(Next(state, a[0]), a[1..], b);
    }
  }

  lemma {:induction false} StaysBroken(s: string)
    ensures ScanFrom(Broken, s) == Broken
  {
    if s == "" {
    } else {
      StaysBroken(s[1..]);
    }
  }

  // No text closes its strings both when read from outside and from inside a string.
  lemma {:induction false} NotBoth(s: string)
    ensures !(ScanFrom(Outside, s) == Outside && ScanFrom(Inside, s) == Outside)
  {
    if s == "" {
    } else {
      NotBoth(s[1..]);
      StaysBroken(s[1..]);
    }
  }

  // JSON text has no proper suffix behind a bar that is JSON text again.
  lemma NoJsonBehindBar(x: string, j: string)
    requires IsJson(j)
    ensures !IsJson(x + "|" + j)
  {
    ScanConcat(Outside, x + "|", j);
    ScanConcat(Outside, x, "|");
    var state := ScanFrom(Outside, x);
    assert "|"[1..] == "";
    assert ScanFrom(state, "|") == Next(state, '|');
    StaysBroken(j);
    NotBoth(j);
  }

  // Names without a bar: no other names or reference share the hashed text.
  lemma PayloadInjective(version: string, d: string, f: string, j: string, d': string, f': string, j': string)
    requires '|' !in version && '|' !in d && '|' !in f && IsJson(j) && IsJson(j')
    requires Payload(version, d, f, j) == Payload(version, d', f', j')
    ensures d == d' && f == f' && j == j'
  {
    var t, t' := f + "|" + j, f' + "|" + j';
    assert Payload(version, d, f, j) == version + "|" + (d + "|" + t);
    assert Payload(version, d', f', j') == version + "|" + (d' + "|" + t');
    assert d + "|" + t == Payload(version, d, f, j)[|version| + 1..];
    assert d' + "|" + t' == Payload(version, d', f', j')[|version| + 1..];
    var z := BarCut(d, t, d', t');
    if d == d' && t == t' {
      var y := BarCut(f, j, f', j');
      NoJsonBehindBar(y, j');
    } else {
      assert f + "|" + j == z + "|" + t';
      var y := BarCut(f, j, z, t');
      if j == t' {
        NoJsonBehindBar(f', j');
      } else {
        assert j == y + "|" + f' + "|" + j';
        NoJsonBehindBar(y + "|" + f', j');
      }
    }
  }

  // With a bar in a name, different fields can share a text.
  lemma PayloadCollides(version: string, d: string, x: string, f: string, j: string)
    ensures Payload(version, d + "|" + x, f, j) == Payload(version, d, x + "|" + f, j)
  {
    var tail := "|" + f + "|" + j;
    assert Payload(version, d + "|" + x, f, j) == version + "|" + d + "|" + x + tail;
    assert Payload(version, d, x + "|" + f, j) == version + "|" + d + "|" + x + tail;
  }

  // No other names or reference give a text that these names give.
  ghost predicate TextIsUnique(version: string, d: string, f: string) {
    forall j, d', f', j' :: IsJson(j) && IsJson(j') && Payload(version, d, f, j) == Payload(version, d', f', j')
      ==> d == d' && f == f' && j == j'
  }

  // The text of a reference that says nothing.
  lemma EmptyIsJson()
    ensures IsJson("{}")
  {
    assert "{}"[1..] == "}" && "}"[1..] == "";
  }

  lemma TextUniqueIff(version: string, d: string, f: string)
    requires '|' !in version
    ensures TextIsUnique(version, d, f) <==> '|' !in d && '|' !in f
  {
    if '|' !in d && '|' !in f {
      forall j, d', f', j' | IsJson(j) && IsJson(j') && Payload(version, d, f, j) == Payload(version, d', f', j')
        ensures d == d' && f == f' && j == j'
      {
        PayloadInjective(version, d, f, j, d', f', j');
      }
    } else if '|' in d {
      EmptyIsJson();
      var i := Find(d, '|');
      assert d == d[..i] + "|" + d[i + 1..];
      PayloadCollides(version, d[..i], d[i + 1..], f, "{}");
      assert |d[..i]| < |d|;
    } else {
      EmptyIsJson();
      var i := Find(f, '|');
      assert f == f[..i] + "|" + f[i + 1..];
      PayloadCollides(version, d, f[..i], f[i + 1..], "{}");
      assert |f[i + 1..]| < |f|;
    }
  }

  // The locator of a secret whose names hold no bar: same locator exactly when same
  // dataset, same field and references that say the same.
  lemma LocatorIdentifies(h: Hashing, d: string, f: string, a: Value, d': string, f': string, b: Value)
    requires a.Dict? && b.Dict? && '|' !in d && '|' !in f
    requires
      var x, y := Form(a), Form(b);
      IsJson(h.json(x)) && IsJson(h.json(y)) && (h.json(x) == h.json(y) ==> x == y)
    requires forall x, y :: h.sha256(x) == h.sha256(y) ==> x == y
    ensures
      h.sha256(Payload(LOCATOR_VERSION_V1, d, f, h.json(Form(a))))
        == h.sha256(Payload(LOCATOR_VERSION_V1, d', f', h.json(Form(b))))
      <==> d == d' && f == f' && ViewFields(a) == ViewFields(b)
  {
    var x, y := h.json(Form(a)), h.json(Form(b));
    SameFormIffSameFields(a, b);
    if Payload(LOCATOR_VERSION_V1, d, f, x) == Payload(LOCATOR_VERSION_V1, d', f', y) {
      PayloadInjective(LOCATOR_VERSION_V1, d, f, x, d', f', y);
    }
  }
}
