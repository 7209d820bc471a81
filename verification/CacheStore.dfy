// The cache tables and their facts. A table refuses a row that lacks a required value or
// takes a value another row holds under a unique index.
// Source: connector/infra/cache/repository/cache_repository.py and
// connector/infra/cache/backends/sqlite/handlers/generic_handler.py
module CacheStore {
  import opened Basics

  // A row, and its value under each unique index; a null has none and clashes with nothing.
  datatype Row = Row(values: string, uniques: map<string, string>)

  // Rows by primary key.
  type Table = map<string, Row>

  datatype Fact = Text(text: string) | Number(number: nat)

  // Tables by dataset, facts by dataset, and the facts of no dataset.
  datatype Cache = Cache(rows: map<string, Table>, meta: map<string, map<string, Fact>>, shared: map<string, string>)

  // What is written: a primary key, a row, and whether every required field has a value.
  datatype Entry = Entry(id: string, row: Row, complete: bool)

  datatype UpsertResult = INSERTED | UPDATED

  // ----- unique indexes -------------------------------------------------------------------

  predicate Share(a: Row, b: Row) {
    exists index :: index in a.uniques && index in b.uniques && a.uniques[index] == b.uniques[index]
  }

  predicate Clashes(t: Table, e: Entry) {
    exists id :: id in t && id != e.id && Share(t[id], e.row)
  }

  predicate Refuses(t: Table, e: Entry) {
    !e.complete || Clashes(t, e)
  }

  // What the unique indexes guarantee of a table.
  ghost predicate ClashFree(t: Table) {
    forall a, b :: a in t && b in t && a != b ==> !Share(t[a], t[b])
  }

  lemma ShareSymmetric(a: Row, b: Row)
    requires Share(a, b)
    ensures Share(b, a)
  {
    var index :| index in a.uniques && index in b.uniques && a.uniques[index] == b.uniques[index];
    assert index in b.uniques && b.uniques[index] == a.uniques[index];
  }

  // An accepted row keeps the indexes unique.
  lemma AcceptedKeepsClashFree(t: Table, e: Entry)
    requires ClashFree(t) && !Refuses(t, e)
    ensures ClashFree(t[e.id := e.row])
  {
    var after := t[e.id := e.row];
    forall a, b | a in after && b in after && a != b ensures !Share(after[a], after[b]) {
      if Share(after[a], after[b]) { ShareSymmetric(after[a], after[b]); }
    }
  }

  // A row that is there is accepted again.
  lemma StoredAccepted(t: Table, e: Entry)
    requires ClashFree(t) && e.complete && e.id in t && t[e.id] == e.row
    ensures !Refuses(t, e)
  {}

  // ----- facts ----------------------------------------------------------------------------

  function MetaOf(c: Cache, dataset: string): map<string, Fact> {
    if dataset in c.meta then c.meta[dataset] else map[]
  }

  function WithFacts(c: Cache, dataset: string, facts: map<string, Fact>): Cache {
    c.(meta := c.meta[dataset := facts])
  }

  lemma FactsAgain(c: Cache, dataset: string, facts: map<string, Fact>, later: map<string, Fact>)
    ensures MetaOf(WithFacts(c, dataset, facts), dataset) == facts
    ensures WithFacts(WithFacts(c, dataset, facts), dataset, later) == WithFacts(c, dataset, later)
  {
    assert c.meta[dataset := facts][dataset := later] == c.meta[dataset := later];
  }

  // How the database answers for the facts of a dataset; see MetaLookup.
  type Reader = (Cache, string) -> map<string, Fact>

  // ----- the repository ---------------------------------------------------------------------

  class CacheRepository {
    var state: Cache
    const read: Reader

    constructor (state: Cache, read: Reader)
      ensures this.state == state && this.read == read
    {
      this.state, this.read := state, read;
    }

    // None where the backend raises: no table, a required value missing, or a clash.
    method Upsert(dataset: string, e: Entry) returns (r: Option<UpsertResult>)
      modifies this
      ensures r == None <==> dataset !in old(state.rows) || Refuses(old(state.rows[dataset]), e)
      ensures r == None ==> state == old(state)
      ensures r.Some? ==>
        && r == Some(if e.id in old(state.rows[dataset]) then UPDATED else INSERTED)
        && state == old(state).(rows := old(state.rows)[dataset := old(state.rows[dataset])[e.id := e.row]])
    {
      if dataset !in state.rows || Refuses(state.rows[dataset], e) { return None; }
      r := Some(if e.id in state.rows[dataset] then UPDATED else INSERTED);
      state := state.(rows := state.rows[dataset := state.rows[dataset][e.id := e.row]]);
    }

    // Dropping and creating the table leaves the dataset's facts alone.
    method Rebuild(dataset: string) returns (ok: bool)
      modifies this
      ensures ok <==> dataset in old(state.rows)
      ensures state == if ok then old(state).(rows := old(state.rows)[dataset := map[]]) else old(state)
    {
      if dataset !in state.rows { return false; }
      state := state.(rows := state.rows[dataset := map[]]);
      return true;
    }

    function Count(dataset: string): Option<nat>
      reads this
    {
      if dataset in state.rows then Some(|state.rows[dataset]|) else None
    }

    function GetMeta(dataset: string): map<string, Fact>
      reads this
    {
      read(state, dataset)
    }

    method SetMeta(dataset: string, key: string, value: Fact)
      modifies this
      ensures state == WithFacts(old(state), dataset, MetaOf(old(state), dataset)[key := value])
    {
      state := state.(meta := state.meta[dataset := MetaOf(state, dataset)[key := value]]);
    }
  }
}
