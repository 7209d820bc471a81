// Python string facts the repository relies on: code-point order, `sorted`,
// and `str.strip`.
module PyText {
  import opened Basics

  // ----- order -----------------------------------------------------------

  // Python compares strings code point by code point.
  predicate StrLe(a: string, b: string) {
    a == [] || (b != [] && (a[0] < b[0] || (a[0] == b[0] && StrLe(a[1..], b[1..]))))
  }

  lemma {:induction false} StrLeRefl(a: string)
    ensures StrLe(a, a)
  {
    if a == [] {
    } else {
      StrLeRefl(a[1..]);
    }
  }

  lemma {:induction false} StrLeTotal(a: string, b: string)
    ensures StrLe(a, b) || StrLe(b, a)
  {
    if a != [] && b != [] { StrLeTotal(a[1..], b[1..]); }
  }

  lemma {:induction false} StrLeAntisym(a: string, b: string)
    requires StrLe(a, b) && StrLe(b, a)
    ensures a == b
  {
    if a == [] {
    } else {
      StrLeAntisym(a[1..], b[1..]);
      assert a == [a[0]] + a[1..] && b == [b[0]] + b[1..];
    }
  }

  lemma {:induction false} StrLeTrans(a: string, b: string, c: string)
    requires StrLe(a, b) && StrLe(b, c)
    ensures StrLe(a, c)
  {
    if a != [] && a[0] == b[0] && b[0] == c[0] { StrLeTrans(a[1..], b[1..], c[1..]); }
  }

  ghost predicate IsLeast(m: string, s: set<string>) {
    m in s && forall x :: x in s ==> StrLe(m, x)
  }

  lemma {:induction false} LeastExists(s: set<string>)
    requires s != {}
    ensures exists m :: IsLeast(m, s)
  {
    var m :| m in s;
    StrLeRefl(m);
    var rest := s - {m};
    if rest == {} {
      assert s == {m};
      assert IsLeast(m, s);
    } else {
      LeastExists(rest);
      var r :| IsLeast(r, rest);
      StrLeTotal(m, r);
      if StrLe(m, r) {
        forall x | x in rest ensures StrLe(m, x) { StrLeTrans(m, r, x); }
        assert IsLeast(m, s);
      } else {
        assert IsLeast(r, s);
      }
    }
  }

  lemma LeastUnique(s: set<string>)
    ensures forall a, b :: IsLeast(a, s) && IsLeast(b, s) ==> a == b
  {
    forall a, b | IsLeast(a, s) && IsLeast(b, s) ensures a == b { StrLeAntisym(a, b); }
  }

  function Least(s: set<string>): (m: string)
    requires s != {}
    ensures IsLeast(m, s)
  {
    LeastExists(s);
    LeastUnique(s);
    assert forall m :: IsLeast(m, s) <==> m in s && forall x :: x in s ==> StrLe(m, x);
    var m :| m in s && forall x :: x in s ==> StrLe(m, x);
    m
  }

  ghost predicate Ascending(s: seq<string>) {
    forall i, j {:trigger StrLe(s[i], s[j])} :: 0 <= i < j < |s| ==> StrLe(s[i], s[j]) && s[i] != s[j]
  }

  ghost predicate IsSorted(r: seq<string>, s: set<string>) {
    Ascending(r) && NoDup(r) && |r| == |s| && forall x :: x in r <==> x in s
  }

  lemma {:induction false} SortedExists(s: set<string>)
    ensures exists r :: IsSorted(r, s)
  {
    if s == {} {
      assert IsSorted([], s);
    } else {
      var m := Least(s);
      SortedExists(s - {m});
      var rest :| IsSorted(rest, s - {m});
      assert IsSorted([m] + rest, s);
    }
  }

  // What `sorted(s)` returns for a collection without repeats.
  ghost function SortedSet(s: set<string>): (r: seq<string>)
    ensures IsSorted(r, s)
  {
    SortedExists(s);
    var r :| IsSorted(r, s);
    r
  }

  ghost predicate AllBefore(r: seq<string>, rest: set<string>) {
    forall x, y :: x in r && y in rest ==> StrLe(x, y)
  }

  lemma SortedStep(s: set<string>, rest: set<string>, r: seq<string>, m: string)
    requires rest <= s && IsSorted(r, s - rest) && AllBefore(r, rest) && IsLeast(m, rest)
    ensures IsSorted(r + [m], s - (rest - {m})) && AllBefore(r + [m], rest - {m})
  {
    assert s - (rest - {m}) == (s - rest) + {m};
  }

  method Sorted(s: set<string>) returns (r: seq<string>)
    ensures r == SortedSet(s)
  {
    var rest := s;
    r := [];
    while rest != {}
      invariant rest <= s && IsSorted(r, s - rest) && AllBefore(r, rest)
    {
      var m := Least(rest);
      SortedStep(s, rest, r, m);
      r := r + [m];
      rest := rest - {m};
    }
    assert s - rest == s;
    AscendingUnique(r, SortedSet(s));
  }

  lemma HeadIsLeast(s: seq<string>)
    requires Ascending(s) && s != []
    ensures Ascending(s[1..]) && s[0] !in s[1..]
  {
    forall k | 0 < k < |s| ensures s[k] != s[0] { assert StrLe(s[0], s[k]); }
    forall i, j | 0 <= i < j < |s[1..]| ensures StrLe(s[1..][i], s[1..][j]) && s[1..][i] != s[1..][j] {
      assert StrLe(s[i + 1], s[j + 1]);
    }
  }

  // Ascending sequences are determined by their elements.
  lemma {:induction false} AscendingUnique(a: seq<string>, b: seq<string>)
    requires Ascending(a) && Ascending(b)
    requires forall x :: x in a <==> x in b
    ensures a == b
  {
    assert forall i :: 0 <= i < |a| ==> a[i] in b;
    assert forall i :: 0 <= i < |b| ==> b[i] in a;
    if a != [] && b != [] {
      assert a[0] in b;
      assert b[0] in a;
      if a[0] != b[0] {
        var i :| 0 <= i < |b| && b[i] == a[0];
        var j :| 0 <= j < |a| && a[j] == b[0];
        assert StrLe(b[0], b[i]) && StrLe(a[0], a[j]);
        StrLeAntisym(a[0], b[0]);
      }
      HeadIsLeast(a);
      HeadIsLeast(b);
      forall x ensures x in a[1..] <==> x in b[1..] {
        if x in a[1..] {
          var k :| 1 <= k < |a| && a[k] == x;
          assert x in b;
        }
        if x in b[1..] {
          var k :| 1 <= k < |b| && b[k] == x;
          assert x in a;
        }
      }
      AscendingUnique(a[1..], b[1..]);
    }
  }

  // ----- whitespace --------------------------------------------------------

  // The characters for which `str.isspace` holds.
  predicate IsSpace(c: char) {
    '\t' <= c <= '\r' || '\U{1C}' <= c <= ' ' || c == '\U{85}' || c == '\U{A0}' || c == '\U{1680}'
    || '\U{2000}' <= c <= '\U{200A}' || c == '\U{2028}' || c == '\U{2029}' || c == '\U{202F}'
    || c == '\U{205F}' || c == '\U{3000}'
  }

  predicate Blank(s: string) {
    forall c :: c in s ==> IsSpace(c)
  }

  lemma BlankConcat(a: string, b: string)
    ensures Blank(a + b) <==> Blank(a) && Blank(b)
  {
    assert forall c :: c in a + b <==> c in a || c in b;
  }

  function RStrip(s: string): (r: string)
    ensures r <= s && Blank(s[|r|..])
    ensures r != [] ==> !IsSpace(Last(r))
  {
    if s != [] && IsSpace(Last(s)) then
      var r := RStrip(s[..|s| - 1]);
      assert s[|r|..] == s[..|s| - 1][|r|..] + [Last(s)];
      r
    else s
  }

  function LStrip(s: string): (r: string)
    ensures |r| <= |s| && r == s[|s| - |r|..] && Blank(s[..|s| - |r|])
    ensures r != [] ==> !IsSpace(r[0])
  {
    if s != [] && IsSpace(s[0]) then
      var r := LStrip(s[1..]);
      var skipped := s[1..][..|s| - 1 - |r|];
      BlankConcat([s[0]], skipped);
      assert s[..|s| - |r|] == [s[0]] + skipped;
      r
    else s
  }

  lemma {:induction false} LStripEmpty(s: string)
    ensures LStrip(s) == [] <==> Blank(s)
  {
    if s == [] {
    } else {
      assert s == [s[0]] + s[1..];
      BlankConcat([s[0]], s[1..]);
      LStripEmpty(s[1..]);
    }
  }

  lemma RStripEmpty(s: string)
    ensures RStrip(s) == [] <==> Blank(s)
  {
    var r := RStrip(s);
    assert s == r + s[|r|..];
    BlankConcat(r, s[|r|..]);
    if r != [] { assert Last(r) in r; }
  }

  lemma LStripBlank(s: string)
    ensures Blank(LStrip(s)) <==> Blank(s)
  {
    LStripEmpty(s);
    if LStrip(s) != [] { assert LStrip(s)[0] in LStrip(s); }
  }

  function Strip(s: string): (r: string)
    ensures r != [] ==> !IsSpace(r[0]) && !IsSpace(Last(r))
    ensures r == [] <==> Blank(s)
  {
    LStripBlank(s);
    RStripEmpty(LStrip(s));
    RStrip(LStrip(s))
  }

  // Stripping takes white space off both ends, and nothing else.
  lemma StripKeeps(s: string)
    ensures exists i, j :: IsStripped(s, Strip(s), i, j)
  {
    var l := LStrip(s);
    var i := |s| - |l|;
    SliceOfSlice(s, i, l, RStrip(l));
    assert Strip(s) == RStrip(l) && s[..i] == s[..|s| - |l|];
    assert IsStripped(s, Strip(s), i, i + |Strip(s)|);
  }

  predicate IsStripped(s: string, r: string, i: int, j: int) {
    0 <= i <= j <= |s| && r == s[i..j] && Blank(s[..i]) && Blank(s[j..])
  }

  lemma SliceOfSlice(s: string, i: nat, l: string, r: string)
    requires i <= |s| && l == s[i..] && r <= l
    ensures r == s[i..i + |r|] && l[|r|..] == s[i + |r|..]
  {}

  // Stripping again changes nothing.
  lemma StripIdempotent(s: string)
    ensures Strip(Strip(s)) == Strip(s)
  {
    var r := Strip(s);
    assert LStrip(r) == r;
    assert RStrip(r) == r;
  }
}
