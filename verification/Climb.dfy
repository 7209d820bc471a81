// The plain climb from a source node through source parents, stopping at a set
// of target ids: where it ends, and what ending nowhere means.
// Source: connector/domain/dependency_tree/anchoring.py
module Climb {
  import opened Basics
  import F = Forest

  // One step up: to a parent that is a source node and not a stop.
  ghost function Next(ps: F.Parents, stop: set<string>, n: string): Option<string> {
    if n in ps && ps[n].Some? && ps[n].value !in stop && ps[n].value in ps then ps[n] else None
  }

  ghost function Up(ps: F.Parents, stop: set<string>, n: string, k: nat): Option<string>
    decreases k
  {
    if k == 0 then Some(n)
    else
      match Next(ps, stop, n)
      case None => None
      case Some(p) => Up(ps, stop, p, k - 1)
  }

  // No parent, or a parent among the stops.
  predicate Grounded(ps: F.Parents, stop: set<string>, n: string)
    requires n in ps
  {
    ps[n].None? || ps[n].value in stop
  }

  // A parent that is neither a stop nor a source node.
  predicate Orphan(ps: F.Parents, stop: set<string>, n: string)
    requires n in ps
  {
    ps[n].Some? && ps[n].value !in stop && ps[n].value !in ps
  }

  datatype Ending = Anchored | BrokenAt(absent: string) | Endless

  ghost predicate HaltsAfter(ps: F.Parents, stop: set<string>, n: string, k: nat) {
    Up(ps, stop, n, k).Some? && Next(ps, stop, Up(ps, stop, n, k).value).None?
  }

  ghost function EndAt(ps: F.Parents, stop: set<string>, a: string): Ending {
    if a !in ps || Grounded(ps, stop, a) then Anchored else BrokenAt(ps[a].value)
  }

  // Where the climb from `n` ends.
  ghost function End(ps: F.Parents, stop: set<string>, n: string): Ending {
    if exists k: nat :: HaltsAfter(ps, stop, n, k) then
      var k: nat :| HaltsAfter(ps, stop, n, k);
      EndAt(ps, stop, Up(ps, stop, n, k).value)
    else Endless
  }

  ghost predicate Fails(ps: F.Parents, stop: set<string>, n: string) {
    n in ps && End(ps, stop, n) != Anchored
  }

  // `a` is `n` or stands above it.
  ghost predicate ClimbsTo(ps: F.Parents, stop: set<string>, n: string, a: string) {
    exists k: nat :: Up(ps, stop, n, k) == Some(a)
  }

  ghost predicate OnCycle(ps: F.Parents, stop: set<string>, e: string) {
    exists k: nat :: k > 0 && Up(ps, stop, e, k) == Some(e)
  }

  // ----- steps ------------------------------------------------------------------------

  lemma {:induction false} UpAdd(ps: F.Parents, stop: set<string>, n: string, j: nat, k: nat)
    requires Up(ps, stop, n, j).Some?
    ensures Up(ps, stop, n, j + k) == Up(ps, stop, Up(ps, stop, n, j).value, k)
    decreases j
  {
    if j == 0 {
    } else {
      UpAdd(ps, stop, Next(ps, stop, n).value, j - 1, k);
    }
  }

  lemma {:induction false} UpIn(ps: F.Parents, stop: set<string>, n: string, k: nat)
    requires n in ps && Up(ps, stop, n, k).Some?
    ensures Up(ps, stop, n, k).value in ps
    decreases k
  {
    if k == 0 {
    } else {
      UpIn(ps, stop, Next(ps, stop, n).value, k - 1);
    }
  }

  lemma {:induction false} HaltUnique(ps: F.Parents, stop: set<string>, n: string, j: nat, k: nat)
    requires HaltsAfter(ps, stop, n, j) && HaltsAfter(ps, stop, n, k)
    ensures j == k
    decreases j
  {
    if j > 0 && k > 0 { HaltUnique(ps, stop, Next(ps, stop, n).value, j - 1, k - 1); }
  }

  lemma EndIs(ps: F.Parents, stop: set<string>, n: string, k: nat)
    requires HaltsAfter(ps, stop, n, k)
    ensures End(ps, stop, n) == EndAt(ps, stop, Up(ps, stop, n, k).value)
  {
    forall j: nat | HaltsAfter(ps, stop, n, j) ensures j == k { HaltUnique(ps, stop, n, j, k); }
  }

  // A node with a step up ends where its parent ends.
  lemma EndStep(ps: F.Parents, stop: set<string>, n: string)
    requires Next(ps, stop, n).Some?
    ensures End(ps, stop, n) == End(ps, stop, Next(ps, stop, n).value)
  {
    var p := Next(ps, stop, n).value;
    if k: nat :| HaltsAfter(ps, stop, p, k) {
      assert Up(ps, stop, n, k + 1) == Up(ps, stop, p, k);
      EndIs(ps, stop, p, k);
      EndIs(ps, stop, n, k + 1);
    } else if k: nat :| HaltsAfter(ps, stop, n, k) {
      assert k > 0;
      assert HaltsAfter(ps, stop, p, k - 1);
    }
  }

  lemma EndHere(ps: F.Parents, stop: set<string>, n: string)
    requires Next(ps, stop, n).None?
    ensures End(ps, stop, n) == EndAt(ps, stop, n)
  {
    assert Up(ps, stop, n, 0) == Some(n);
    EndIs(ps, stop, n, 0);
  }

  lemma {:induction false} EndAlong(ps: F.Parents, stop: set<string>, n: string, k: nat)
    requires Up(ps, stop, n, k).Some?
    ensures End(ps, stop, n) == End(ps, stop, Up(ps, stop, n, k).value)
    decreases k
  {
    if k == 0 {
    } else {
      EndStep(ps, stop, n);
      EndAlong(ps, stop, Next(ps, stop, n).value, k - 1);
    }
  }

  // ----- endless climbs -----------------------------------------------------------------

  lemma {:induction false} EndlessStays(ps: F.Parents, stop: set<string>, n: string, k: nat)
    requires End(ps, stop, n) == Endless
    ensures Up(ps, stop, n, k).Some?
    decreases k
  {
    if k == 0 {
    } else {
      if Next(ps, stop, n).None? { EndHere(ps, stop, n); }
      EndStep(ps, stop, n);
      EndlessStays(ps, stop, Next(ps, stop, n).value, k - 1);
    }
  }

  // A climb without end runs into a cycle of source nodes, and only such a climb does.
  lemma EndlessIffCycle(ps: F.Parents, stop: set<string>, n: string)
    requires n in ps
    ensures End(ps, stop, n) == Endless <==> exists e :: ClimbsTo(ps, stop, n, e) && OnCycle(ps, stop, e)
  {
    if End(ps, stop, n) == Endless {
      var trail := Trail(ps, stop, n, |ps.Keys|);
      var i, j := Pigeonhole(trail, ps.Keys);
      var e := trail[i];
      UpAdd(ps, stop, n, i, j - i);
      assert j - i > 0 && Up(ps, stop, e, j - i) == Some(e);
      assert ClimbsTo(ps, stop, n, e) && OnCycle(ps, stop, e);
    }
    if e :| ClimbsTo(ps, stop, n, e) && OnCycle(ps, stop, e) {
      var k: nat :| Up(ps, stop, n, k) == Some(e);
      EndAlong(ps, stop, n, k);
      CycleEndless(ps, stop, e);
    }
  }

  lemma Trail(ps: F.Parents, stop: set<string>, n: string, len: nat) returns (trail: seq<string>)
    requires n in ps && End(ps, stop, n) == Endless
    ensures |trail| == len + 1 && Elems(trail) <= ps.Keys
    ensures forall k :: 0 <= k <= len ==> Up(ps, stop, n, k) == Some(trail[k])
  {
    trail := [];
    for k := 0 to len + 1
      invariant |trail| == k && Elems(trail) <= ps.Keys
      invariant forall i :: 0 <= i < k ==> Up(ps, stop, n, i) == Some(trail[i])
    {
      EndlessStays(ps, stop, n, k);
      UpIn(ps, stop, n, k);
      trail := trail + [Up(ps, stop, n, k).value];
    }
  }

  lemma CycleEndless(ps: F.Parents, stop: set<string>, e: string)
    requires OnCycle(ps, stop, e)
    ensures End(ps, stop, e) == Endless
  {
    if k: nat :| HaltsAfter(ps, stop, e, k) {
      var c: nat :| c > 0 && Up(ps, stop, e, c) == Some(e);
      CycleOutlasts(ps, stop, e, c, k);
    }
  }

  // A climb that returns to its start has no last step.
  lemma {:induction false} CycleOutlasts(ps: F.Parents, stop: set<string>, e: string, c: nat, k: nat)
    requires c > 0 && Up(ps, stop, e, c) == Some(e) && HaltsAfter(ps, stop, e, k)
    ensures false
    decreases k
  {
    if k < c {
      UpAdd(ps, stop, e, k, c - k);
    } else {
      UpAdd(ps, stop, e, c, k - c);
      CycleOutlasts(ps, stop, e, c, k - c);
    }
  }

  // ----- the chain without stops ----------------------------------------------------------

  // A failing node's whole source chain is its climb: everything above it fails alike.
  lemma {:induction false} FailingChain(ps: F.Parents, stop: set<string>, n: string, k: nat)
    requires Fails(ps, stop, n) && Up(ps, {}, n, k).Some?
    ensures Up(ps, stop, n, k) == Up(ps, {}, n, k)
    ensures Fails(ps, stop, Up(ps, {}, n, k).value) && End(ps, stop, Up(ps, {}, n, k).value) == End(ps, stop, n)
    decreases k
  {
    if k == 0 {
    } else {
      if Next(ps, stop, n).None? { EndHere(ps, stop, n); }
      EndStep(ps, stop, n);
      FailingChain(ps, stop, Next(ps, stop, n).value, k - 1);
    }
  }

  // More stops can only turn failing climbs into anchored ones.
  lemma {:induction false} MoreStopsAnchor(ps: F.Parents, stop: set<string>, more: set<string>, n: string, k: nat)
    requires stop <= more && n in ps && HaltsAfter(ps, stop, n, k)
      && EndAt(ps, stop, Up(ps, stop, n, k).value) == Anchored
    ensures End(ps, more, n) == Anchored
    decreases k
  {
    assert Up(ps, stop, n, 0) == Some(n);
    if Next(ps, more, n).None? {
      EndHere(ps, more, n);
    } else if k == 0 {
      assert false;
    } else {
      EndStep(ps, more, n);
      MoreStopsAnchor(ps, stop, more, Next(ps, stop, n).value, k - 1);
    }
  }
}
