// System codes: choosing the main one of a set, and the exit code it leads to.
// Source: connector/domain/diagnostics/policies.py, catalog.py, command_result.py
module Policies {
  import opened Basics
  import opened PyText

  datatype SystemErrorCode =
    | OK
    | UNKNOWN_CODE
    | INTERNAL_ERROR
    | DATA_INVALID
    | AUTH_UNAUTHORIZED
    | AUTH_FORBIDDEN
    | CONFLICT
    | INFRA_TIMEOUT
    | INFRA_UNAVAILABLE
    | IO_ERROR
    | CACHE_ERROR
  {
    function Value(): string {
      match this
      case OK => "OK"
      case UNKNOWN_CODE => "UNKNOWN_CODE"
      case INTERNAL_ERROR => "INTERNAL_ERROR"
      case DATA_INVALID => "DATA_INVALID"
      case AUTH_UNAUTHORIZED => "AUTH_UNAUTHORIZED"
      case AUTH_FORBIDDEN => "AUTH_FORBIDDEN"
      case CONFLICT => "CONFLICT"
      case INFRA_TIMEOUT => "INFRA_TIMEOUT"
      case INFRA_UNAVAILABLE => "INFRA_UNAVAILABLE"
      case IO_ERROR => "IO_ERROR"
      case CACHE_ERROR => "CACHE_ERROR"
    }
  }

  type Codes = set<SystemErrorCode>

  // All codes in the order of their values.
  const BY_VALUE: seq<SystemErrorCode> := [
    AUTH_FORBIDDEN, AUTH_UNAUTHORIZED, CACHE_ERROR, CONFLICT, DATA_INVALID, INFRA_TIMEOUT,
    INFRA_UNAVAILABLE, INTERNAL_ERROR, IO_ERROR, OK, UNKNOWN_CODE]

  lemma ByValueAscends(i: nat)
    requires i + 1 < |BY_VALUE|
    ensures BY_VALUE[i] != BY_VALUE[i + 1]
    ensures StrLe(BY_VALUE[i].Value(), BY_VALUE[i + 1].Value())
  {
    var a, b := BY_VALUE[i].Value(), BY_VALUE[i + 1].Value();
    var k := if i == 0 then 5 else if i == 2 then 1 else if i == 5 then 6 else if i == 6 then 2 else if i == 7 then 1
      else 0;
    FirstDifference(a, b, k);
  }

  lemma {:induction false} FirstDifference(a: string, b: string, k: nat)
    requires k < |a| && k < |b| && a[..k] == b[..k] && a[k] < b[k]
    ensures StrLe(a, b)
  {
    if k == 0 {
    } else {
      assert a[0] == a[..k][0] && b[0] == b[..k][0];
      assert a[1..][..k - 1] == a[..k][1..] && b[1..][..k - 1] == b[..k][1..];
      FirstDifference(a[1..], b[1..], k - 1);
    }
  }

  lemma ByValueComplete(c: SystemErrorCode)
    ensures c in BY_VALUE
  {
    var i := match c
      case AUTH_FORBIDDEN => 0 case AUTH_UNAUTHORIZED => 1 case CACHE_ERROR => 2 case CONFLICT => 3
      case DATA_INVALID => 4 case INFRA_TIMEOUT => 5 case INFRA_UNAVAILABLE => 6 case INTERNAL_ERROR => 7
      case IO_ERROR => 8 case OK => 9 case UNKNOWN_CODE => 10;
    assert BY_VALUE[i] == c;
  }

  lemma {:induction false} ByValueOrdered(i: nat, j: nat)
    requires i <= j < |BY_VALUE|
    ensures StrLe(BY_VALUE[i].Value(), BY_VALUE[j].Value())
  {
    if i == j {
      StrLeRefl(BY_VALUE[i].Value());
    } else {
      ByValueOrdered(i, j - 1);
      ByValueAscends(j - 1);
      StrLeTrans(BY_VALUE[i].Value(), BY_VALUE[j - 1].Value(), BY_VALUE[j].Value());
    }
  }

  // The first code of a priority list that belongs to the set.
  function FirstOf(order: seq<SystemErrorCode>, codes: Codes): (r: Option<SystemErrorCode>)
    ensures r.Some? <==> exists c :: c in order && c in codes
    ensures r.Some? ==> r.value in order && r.value in codes
  {
    if order == [] then None
    else if order[0] in codes then Some(order[0])
    else FirstOf(order[1..], codes)
  }

  // `sorted(codes, key=value)`
  function Ascending(codes: Codes): (r: seq<SystemErrorCode>)
    ensures forall c :: c in r <==> c in codes
  {
    forall c ensures c in BY_VALUE { ByValueComplete(c); }
    Members(BY_VALUE, codes)
  }

  function Members(order: seq<SystemErrorCode>, codes: Codes): (r: seq<SystemErrorCode>)
    ensures forall c :: c in r <==> c in order && c in codes
  {
    if order == [] then []
    else (if order[0] in codes then [order[0]] else []) + Members(order[1..], codes)
  }

  // Its members come once each, in the order of their values.
  lemma AscendingSorted(codes: Codes)
    ensures SortedCodes(Ascending(codes))
  {
    forall i, j | 0 <= i < j < |BY_VALUE| ensures InPlace(BY_VALUE, i, j) {
      ByValueOrdered(i, j);
      ByValueDistinct(i, j);
    }
    MembersSorted(BY_VALUE, codes);
  }

  ghost predicate SortedCodes(s: seq<SystemErrorCode>) {
    forall i, j {:trigger InPlace(s, i, j)} :: 0 <= i < j < |s| ==> InPlace(s, i, j)
  }

  ghost predicate InPlace(s: seq<SystemErrorCode>, i: int, j: int)
    requires 0 <= i < j < |s|
  {
    StrLe(s[i].Value(), s[j].Value()) && s[i] != s[j]
  }

  lemma SortedCons(c: SystemErrorCode, s: seq<SystemErrorCode>)
    requires SortedCodes(s) && forall d :: d in s ==> StrLe(c.Value(), d.Value()) && d != c
    ensures SortedCodes([c] + s)
  {
    var all := [c] + s;
    forall i, j | 0 <= i < j < |all| ensures InPlace(all, i, j) {
      assert all[j] == s[j - 1];
      if i == 0 { assert s[j - 1] in s; } else { assert InPlace(s, i - 1, j - 1); }
    }
  }

  lemma SortedRest(order: seq<SystemErrorCode>)
    requires SortedCodes(order) && order != []
    ensures SortedCodes(order[1..])
    ensures forall d :: d in order[1..] ==> StrLe(order[0].Value(), d.Value()) && d != order[0]
  {
    var rest := order[1..];
    forall i, j | 0 <= i < j < |rest| ensures InPlace(rest, i, j) { assert InPlace(order, i + 1, j + 1); }
    forall d | d in rest ensures StrLe(order[0].Value(), d.Value()) && d != order[0] {
      var k :| 0 <= k < |rest| && rest[k] == d;
      assert InPlace(order, 0, k + 1);
    }
  }

  lemma {:induction false} MembersSorted(order: seq<SystemErrorCode>, codes: Codes)
    requires SortedCodes(order)
    ensures SortedCodes(Members(order, codes))
  {
    if order != [] {
      SortedRest(order);
      MembersSorted(order[1..], codes);
      var m := Members(order[1..], codes);
      assert [] + m == m;
      SortedCons(order[0], m);
    }
  }

  lemma ByValueDistinct(i: nat, j: nat)
    requires i < j < |BY_VALUE|
    ensures BY_VALUE[i] != BY_VALUE[j]
  {}

  ghost predicate IsSmallest(c: SystemErrorCode, codes: Codes) {
    c in codes && forall d :: d in codes ==> StrLe(c.Value(), d.Value())
  }

  lemma {:induction false} FirstOfPosition(order: seq<SystemErrorCode>, codes: Codes) returns (i: nat)
    requires FirstOf(order, codes).Some?
    ensures i < |order| && order[i] == FirstOf(order, codes).value
    ensures forall j :: 0 <= j < i ==> order[j] !in codes
  {
    if order[0] in codes {
      i := 0;
    } else {
      var k := FirstOfPosition(order[1..], codes);
      i := k + 1;
      forall j | 0 <= j < i ensures order[j] !in codes {
        if j > 0 { assert order[1..][j - 1] == order[j]; }
      }
    }
  }

  lemma FirstByValue(codes: Codes)
    requires codes != {}
    ensures FirstOf(BY_VALUE, codes).Some? && IsSmallest(FirstOf(BY_VALUE, codes).value, codes)
  {
    var c :| c in codes;
    ByValueComplete(c);
    var i := FirstOfPosition(BY_VALUE, codes);
    forall d | d in codes ensures StrLe(BY_VALUE[i].Value(), d.Value()) {
      ByValueComplete(d);
      var j :| 0 <= j < |BY_VALUE| && BY_VALUE[j] == d;
      ByValueOrdered(i, j);
    }
  }

  // ----- the policies -----------------------------------------------------------------------

  datatype StopPolicy = StopPolicy(fatal: Codes)
  {
    predicate IsFatal(c: SystemErrorCode) { c in fatal }
  }

  const FATAL_PRIORITY: seq<SystemErrorCode> := [INTERNAL_ERROR, AUTH_UNAUTHORIZED, AUTH_FORBIDDEN]

  const DEFAULT_STOP := StopPolicy({AUTH_UNAUTHORIZED, AUTH_FORBIDDEN, INTERNAL_ERROR})

  function ResolvePrimaryCode(codes: Codes, stop: StopPolicy): SystemErrorCode {
    if codes <= {OK} then OK
    else
      var fatal := FatalCode(codes * stop.fatal);
      if fatal.Some? then fatal.value else OrdinaryCode(codes)
  }

  function FatalCode(fatal: Codes): Option<SystemErrorCode> {
    var byPriority := FirstOf(FATAL_PRIORITY, fatal);
    if byPriority.Some? then byPriority else FirstOf(BY_VALUE, fatal)
  }

  function OrdinaryCode(codes: Codes): SystemErrorCode {
    if DATA_INVALID in codes then DATA_INVALID
    else if CONFLICT in codes then CONFLICT
    else
      var smallest := FirstOf(BY_VALUE, codes);
      if smallest.Some? then smallest.value else OK
  }

  lemma FatalCodeMeans(fatal: Codes)
    ensures FatalCode(fatal).Some? <==> fatal != {}
    ensures fatal != {} ==> FatalCode(fatal).value in fatal
    ensures fatal != {} && FirstOf(FATAL_PRIORITY, fatal) == None ==> IsSmallest(FatalCode(fatal).value, fatal)
  {
    if fatal != {} { FirstByValue(fatal); }
  }

  lemma OrdinaryCodeMeans(codes: Codes)
    requires codes != {}
    ensures OrdinaryCode(codes) in codes
    ensures DATA_INVALID !in codes && CONFLICT !in codes ==> IsSmallest(OrdinaryCode(codes), codes)
  {
    FirstByValue(codes);
  }

  // The choice is one of the codes, fatal whenever any is, and otherwise a data problem
  // whenever there is one.
  lemma PrimaryCodeMeans(codes: Codes, stop: StopPolicy)
    requires codes != {}
    ensures ResolvePrimaryCode(codes, stop) in codes
    ensures stop.IsFatal(ResolvePrimaryCode(codes, stop)) <==> codes * stop.fatal != {}
    ensures codes * stop.fatal == {} && DATA_INVALID in codes ==> ResolvePrimaryCode(codes, stop) == DATA_INVALID
    ensures codes * stop.fatal == {} && DATA_INVALID !in codes && CONFLICT in codes ==>
      ResolvePrimaryCode(codes, stop) == CONFLICT
    ensures codes * stop.fatal == {} && DATA_INVALID !in codes && CONFLICT !in codes ==>
      IsSmallest(ResolvePrimaryCode(codes, stop), codes)
  {
    FatalCodeMeans(codes * stop.fatal);
    OrdinaryCodeMeans(codes);
    if codes <= {OK} {
      assert codes == {OK};
      StrLeRefl(OK.Value());
    }
    var r := ResolvePrimaryCode(codes, stop);
    assert stop.IsFatal(r) && r in codes ==> r in codes * stop.fatal;
  }

  // Among fatal codes: the fixed priority first, then the smallest value.
  lemma FatalPriority(codes: Codes, stop: StopPolicy)
    requires codes * stop.fatal != {}
    ensures
      var fatal, r := codes * stop.fatal, ResolvePrimaryCode(codes, stop);
      if INTERNAL_ERROR in fatal then r == INTERNAL_ERROR
      else if AUTH_UNAUTHORIZED in fatal then r == AUTH_UNAUTHORIZED
      else if AUTH_FORBIDDEN in fatal then r == AUTH_FORBIDDEN
      else IsSmallest(r, fatal)
  {
    var fatal := codes * stop.fatal;
    FatalCodeMeans(fatal);
    FirstOfThree(fatal);
    if codes <= {OK} {
      assert fatal == {OK};
      StrLeRefl(OK.Value());
    }
  }

  lemma FirstOfThree(fatal: Codes)
    ensures FirstOf(FATAL_PRIORITY, fatal) ==
      if INTERNAL_ERROR in fatal then Some(INTERNAL_ERROR)
      else if AUTH_UNAUTHORIZED in fatal then Some(AUTH_UNAUTHORIZED)
      else if AUTH_FORBIDDEN in fatal then Some(AUTH_FORBIDDEN)
      else None
  {
    assert FATAL_PRIORITY[1..] == [AUTH_UNAUTHORIZED, AUTH_FORBIDDEN] && FATAL_PRIORITY[1..][1..] == [AUTH_FORBIDDEN];
  }

  lemma ValuesFromOk(c: SystemErrorCode)
    ensures StrLe(OK.Value(), c.Value()) <==> c == OK || c == UNKNOWN_CODE
  {
    if c == OK { StrLeRefl("OK"); }
  }

  lemma SmallestIsOk(codes: Codes)
    requires IsSmallest(OK, codes)
    ensures codes <= {OK, UNKNOWN_CODE}
  {
    forall c | c in codes ensures c == OK || c == UNKNOWN_CODE { ValuesFromOk(c); }
  }

  lemma OkBesideUnknown(r: SystemErrorCode)
    requires IsSmallest(r, {OK, UNKNOWN_CODE})
    ensures r == OK
  {
    if r == UNKNOWN_CODE {
      ValuesFromOk(UNKNOWN_CODE);
      StrLeAntisym(OK.Value(), UNKNOWN_CODE.Value());
    }
  }

  // Under the default policy, OK wins exactly over nothing, itself and UNKNOWN_CODE.
  lemma PrimaryOkIff(codes: Codes)
    ensures ResolvePrimaryCode(codes, DEFAULT_STOP) == OK <==> codes <= {OK} || codes == {OK, UNKNOWN_CODE}
  {
    if codes == {OK, UNKNOWN_CODE} {
      PrimaryCodeMeans(codes, DEFAULT_STOP);
      OkBesideUnknown(ResolvePrimaryCode(codes, DEFAULT_STOP));
    } else if codes != {} && ResolvePrimaryCode(codes, DEFAULT_STOP) == OK {
      PrimaryCodeMeans(codes, DEFAULT_STOP);
      SmallestIsOk(codes);
      assert codes <= {OK} || codes == {OK, UNKNOWN_CODE};
    }
  }

  datatype ExitCodePolicy = ExitCodePolicy(mapping: map<SystemErrorCode, int>, defaultCode: int)
  {
    function ExitCode(c: SystemErrorCode): int { if c in mapping then mapping[c] else defaultCode }
  }

  const DEFAULT_EXIT := ExitCodePolicy(map[
    OK := 0, DATA_INVALID := 1, CONFLICT := 1, AUTH_UNAUTHORIZED := 2, AUTH_FORBIDDEN := 2, CACHE_ERROR := 2,
    IO_ERROR := 2, INFRA_TIMEOUT := 2, INFRA_UNAVAILABLE := 2, INTERNAL_ERROR := 2, UNKNOWN_CODE := 2], 1)

  function ExitCodeOf(codes: Codes): int {
    DEFAULT_EXIT.ExitCode(ResolvePrimaryCode(codes, DEFAULT_STOP))
  }

  lemma ExitCodeByPolicy(codes: Codes)
    ensures ExitCodeOf(codes) ==
      if codes <= {OK} || codes == {OK, UNKNOWN_CODE} then 0
      else if codes * DEFAULT_STOP.fatal == {} && (DATA_INVALID in codes || CONFLICT in codes) then 1
      else 2
  {
    PrimaryOkIff(codes);
    if codes != {} { PrimaryCodeMeans(codes, DEFAULT_STOP); }
  }

  // The exit code, from the set alone. A data problem beside an infrastructure problem
  // lowers 2 to 1, and OK beside UNKNOWN_CODE lowers it to 0.
  lemma DefaultExitCode(codes: Codes)
    ensures ExitCodeOf(codes) ==
      if codes <= {OK} || codes == {OK, UNKNOWN_CODE} then 0
      else if AUTH_UNAUTHORIZED !in codes && AUTH_FORBIDDEN !in codes && INTERNAL_ERROR !in codes
        && (DATA_INVALID in codes || CONFLICT in codes) then 1
      else 2
  {
    ExitCodeByPolicy(codes);
    FatalAmong(codes);
  }

  lemma FatalAmong(codes: Codes)
    ensures codes * DEFAULT_STOP.fatal != {}
      <==> AUTH_UNAUTHORIZED in codes || AUTH_FORBIDDEN in codes || INTERNAL_ERROR in codes
  {
    if c :| c in codes && c in {AUTH_UNAUTHORIZED, AUTH_FORBIDDEN, INTERNAL_ERROR} {
      assert c in codes * DEFAULT_STOP.fatal;
    }
  }

  // One data problem more beside an infrastructure problem, and the exit code is lower.
  lemma DataProblemLowersExit(problem: SystemErrorCode)
    requires problem !in {AUTH_UNAUTHORIZED, AUTH_FORBIDDEN, INTERNAL_ERROR, OK, DATA_INVALID, CONFLICT}
    ensures ExitCodeOf({problem}) == 2 && ExitCodeOf({problem, DATA_INVALID}) == 1
  {
    var alone, both := {problem}, {problem, DATA_INVALID};
    DefaultExitCode(alone);
    DefaultExitCode(both);
    assert problem in alone && OK !in alone && DATA_INVALID in both;
  }

  // OK beside an unknown code hides it.
  lemma OkHidesUnknown(codes: Codes)
    requires codes == {UNKNOWN_CODE}
    ensures ExitCodeOf(codes) == 2 && ExitCodeOf(codes + {OK}) == 0
  {
    DefaultExitCode(codes);
    DefaultExitCode(codes + {OK});
    assert UNKNOWN_CODE in codes && OK !in codes;
  }

  // ----- the catalog ---------------------------------------------------------------------------

  datatype Catalog = Catalog(entries: map<string, SystemErrorCode>, strict: bool)
  {
    // None where `classify` raises on a code it does not know.
    function Classify(code: string): Option<SystemErrorCode> {
      if code in entries then Some(entries[code]) else if strict then None else Some(UNKNOWN_CODE)
    }

    predicate NeverOk() { OK !in entries.Values }
  }

  // ----- results of commands ---------------------------------------------------------------------

  class CommandResult {
    var systemCodes: Codes
    var diagnostics: seq<string>

    constructor ()
      ensures systemCodes == {} && diagnostics == []
    {
      systemCodes, diagnostics := {}, [];
    }

    method AddCode(c: SystemErrorCode)
      modifies this
      ensures systemCodes == old(systemCodes) + {c} && diagnostics == old(diagnostics)
    {
      systemCodes := systemCodes + {c};
    }

    // On an unknown code in strict mode the diagnostic is kept and its code is not.
    method AddDiagnostics(items: seq<string>, catalog: Catalog) returns (ok: bool)
      modifies this
      ensures ok <==> forall d :: d in items ==> catalog.Classify(d).Some?
      ensures ok ==>
        diagnostics == old(diagnostics) + items && systemCodes == old(systemCodes) + CodesOf(items, catalog)
      ensures !ok ==>
        (exists n :: IsFirstUnknown(items, catalog, n)
          && diagnostics == old(diagnostics) + items[..n + 1]
          && systemCodes == old(systemCodes) + CodesOf(items[..n], catalog))
    {
      for i := 0 to |items|
        invariant forall d :: d in items[..i] ==> catalog.Classify(d).Some?
        invariant diagnostics == old(diagnostics) + items[..i]
        invariant systemCodes == old(systemCodes) + CodesOf(items[..i], catalog)
      {
        assert items[..i + 1] == items[..i] + [items[i]];
        assert items[..i + 1][..i] == items[..i];
        diagnostics := diagnostics + [items[i]];
        var c := catalog.Classify(items[i]);
        if c == None {
          assert IsFirstUnknown(items, catalog, i);
          return false;
        }
        systemCodes := systemCodes + {c.value};
      }
      assert items[..|items|] == items;
      return true;
    }

    function PrimaryCode(stop: Option<StopPolicy>): SystemErrorCode
      reads this
    {
      ResolvePrimaryCode(systemCodes, if stop.Some? then stop.value else DEFAULT_STOP)
    }

    function ExitCode(exit: Option<ExitCodePolicy>, stop: Option<StopPolicy>): int
      reads this
    {
      (if exit.Some? then exit.value else DEFAULT_EXIT).ExitCode(PrimaryCode(stop))
    }

    predicate Succeeded()
      reads this
    {
      systemCodes == {} || systemCodes == {OK}
    }

    // `ok` and exit code 0 part ways for one set of codes.
    lemma ExitZeroIff()
      ensures ExitCode(None, None) == 0 <==> Succeeded() || systemCodes == {OK, UNKNOWN_CODE}
    {
      DefaultExitCode(systemCodes);
    }
  }

  ghost predicate IsFirstUnknown(items: seq<string>, catalog: Catalog, n: int) {
    0 <= n < |items| && catalog.Classify(items[n]) == None && forall d :: d in items[..n] ==> catalog.Classify(d).Some?
  }

  // The codes of the diagnostics the catalog can classify.
  ghost function CodesOf(items: seq<string>, catalog: Catalog): Codes {
    if items == [] then {} else
      CodesOf(items[..|items| - 1], catalog) + match catalog.Classify(Last(items)) case Some(c) => {c} case None => {}
  }
}
