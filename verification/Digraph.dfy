// Finite directed graphs given by successor lists, with walks, cycles and
// topological orders.
module Digraph {
  import opened Basics

  type Graph = map<string, seq<string>>

  // The lookup `graph.get(name, ())`.
  function Succ(g: Graph, n: string): seq<string> {
    if n in g then g[n] else []
  }

  // Every successor is itself a node.
  ghost predicate Closed(g: Graph) {
    forall n, d :: n in g && d in g[n] ==> d in g
  }

  ghost predicate IsWalk(g: Graph, p: seq<string>) {
    p != [] && forall i :: 0 <= i < |p| - 1 ==> p[i + 1] in Succ(g, p[i])
  }

  ghost predicate WalkFrom(g: Graph, a: string, b: string, p: seq<string>) {
    IsWalk(g, p) && p[0] == a && Last(p) == b
  }

  // Reflexive-transitive reachability.
  ghost predicate Reaches(g: Graph, a: string, b: string) {
    exists p :: WalkFrom(g, a, b, p)
  }

  ghost predicate IsCycle(g: Graph, p: seq<string>) {
    IsWalk(g, p) && |p| >= 2 && p[0] == Last(p)
  }

  ghost predicate Cyclic(g: Graph) {
    exists p :: IsCycle(g, p)
  }

  // `order` lists every node once, each one after all of its successors.
  ghost predicate IsTopological(g: Graph, order: seq<string>) {
    NoDup(order) && Elems(order) == g.Keys && SuccessorsFirst(g, order)
  }

  ghost predicate SuccessorsFirst(g: Graph, order: seq<string>) {
    forall i, d :: 0 <= i < |order| && d in Succ(g, order[i]) ==> d in order[..i]
  }

  lemma ReachesRefl(g: Graph, a: string)
    ensures Reaches(g, a, a)
  {
    assert WalkFrom(g, a, a, [a]);
  }

  lemma ReachesStep(g: Graph, a: string, b: string, c: string)
    requires Reaches(g, a, b) && c in Succ(g, b)
    ensures Reaches(g, a, c)
  {
    var p :| WalkFrom(g, a, b, p);
    assert WalkFrom(g, a, c, p + [c]);
  }

  ghost predicate Traps(g: Graph, trap: set<string>) {
    forall n {:trigger Succ(g, n)} :: n in trap ==> exists d :: d in trap && d in Succ(g, n)
  }

  lemma {:induction false} TrappedWalk(g: Graph, trap: set<string>, start: string, k: nat) returns (w: seq<string>)
    requires Traps(g, trap) && start in trap
    ensures |w| == k + 1 && IsWalk(g, w) && forall x :: x in w ==> x in trap
  {
    w := [start];
    if k > 0 {
      var v := TrappedWalk(g, trap, start, k - 1);
      assert Last(v) in v;
      var d :| d in trap && d in Succ(g, Last(v));
      w := v + [d];
    }
  }

  lemma WalkSlice(g: Graph, w: seq<string>, i: nat, j: nat)
    requires IsWalk(g, w) && i < j < |w|
    ensures IsWalk(g, w[i..j + 1])
  {
    var p := w[i..j + 1];
    forall k | 0 <= k < |p| - 1 ensures p[k + 1] in Succ(g, p[k]) {
      assert w[(i + k) + 1] in Succ(g, w[i + k]);
    }
  }

  // A nonempty set in which every node has a successor in the set holds a cycle.
  lemma TrappedCycle(g: Graph, trap: set<string>) returns (p: seq<string>)
    requires trap != {} && Traps(g, trap)
    ensures IsCycle(g, p) && forall x :: x in p ==> x in trap
  {
    var start :| start in trap;
    var w := TrappedWalk(g, trap, start, |trap|);
    var i, j := Pigeonhole(w, trap);
    p := w[i..j + 1];
    WalkSlice(g, w, i, j);
  }

  // A topological order leaves no room for a cycle.
  lemma TopologicalAcyclic(g: Graph, order: seq<string>)
    requires IsTopological(g, order)
    ensures !Cyclic(g)
  {
    forall p ensures !IsCycle(g, p) {
      if IsCycle(g, p) {
        assert p[1] in Succ(g, p[0]);
        assert p[0] in order;
        WalkDescends(g, order, p, |p| - 1);
      }
    }
  }

  lemma {:induction false} WalkDescends(g: Graph, order: seq<string>, p: seq<string>, k: nat)
    requires IsTopological(g, order) && IsWalk(g, p) && p[0] in order && 0 < k < |p|
    ensures p[k] in order && Find(order, p[k]) < Find(order, p[0])
  {
    if k > 1 { WalkDescends(g, order, p, k - 1); }
    assert p[k - 1] in order;
    var i := Find(order, p[k - 1]);
    assert p[(k - 1) + 1] in Succ(g, order[i]);
    assert p[k] in order[..i];
    var j :| 0 <= j < i && order[j] == p[k];
    assert order[Find(order, p[k])] == order[j];
  }

  lemma ExtendOrder(g: Graph, order: seq<string>, n: string)
    requires NoDup(order) && SuccessorsFirst(g, order) && n !in order
    requires forall d :: d in Succ(g, n) ==> d in order
    ensures NoDup(order + [n]) && SuccessorsFirst(g, order + [n])
  {
    var grown := order + [n];
    forall i, d | 0 <= i < |grown| && d in Succ(g, grown[i]) ensures d in grown[..i] {
      if i < |order| {
        assert grown[..i] == order[..i];
      } else {
        assert grown[..i] == order;
      }
    }
  }

  // Conversely every acyclic closed graph has a topological order.
  lemma AcyclicHasOrder(g: Graph) returns (order: seq<string>)
    requires Closed(g) && !Cyclic(g)
    ensures IsTopological(g, order)
  {
    order := ExtendToAll(g, []);
  }

  lemma {:induction false} ExtendToAll(g: Graph, done: seq<string>) returns (order: seq<string>)
    requires Closed(g) && !Cyclic(g)
    requires NoDup(done) && Elems(done) <= g.Keys && SuccessorsFirst(g, done)
    ensures IsTopological(g, order)
    decreases |g.Keys - Elems(done)|
  {
    var rest := g.Keys - Elems(done);
    if rest == {} {
      return done;
    }
    if Traps(g, rest) {
      var p := TrappedCycle(g, rest);
      assert false;
    }
    var n :| n in rest && forall d :: d in rest ==> d !in Succ(g, n);
    ExtendOrder(g, done, n);
    assert Elems(done + [n]) == Elems(done) + {n};
    assert g.Keys - Elems(done + [n]) == rest - {n};
    order := ExtendToAll(g, done + [n]);
  }

  // ----- reversal ----------------------------------------------------------

  ghost predicate IsReverse(g: Graph, r: Graph) {
    forall a, b :: a in Succ(r, b) <==> b in Succ(g, a)
  }

  // Reversing every edge reverses reachability.
  lemma ReverseReaches(g: Graph, r: Graph, a: string, b: string)
    requires IsReverse(g, r)
    ensures Reaches(g, a, b) <==> Reaches(r, b, a)
  {
    if Reaches(g, a, b) { ReverseWalk(g, r, a, b); }
    if Reaches(r, b, a) { ReverseWalk(r, g, b, a); }
  }

  lemma ReverseWalk(g: Graph, r: Graph, a: string, b: string)
    requires forall x, y :: y in Succ(g, x) ==> x in Succ(r, y)
    requires Reaches(g, a, b)
    ensures Reaches(r, b, a)
  {
    var p :| WalkFrom(g, a, b, p);
    var q := Reversed(p);
    forall i | 0 <= i < |q| - 1 ensures q[i + 1] in Succ(r, q[i]) {
      var k := |p| - 2 - i;
      assert p[k + 1] in Succ(g, p[k]);
    }
    assert WalkFrom(r, b, a, q);
  }

  // Along a walk out of a listed node, everything is listed no later than it.
  lemma ReachableNotLater(g: Graph, order: seq<string>, a: string, b: string)
    requires IsTopological(g, order) && a in order && Reaches(g, a, b)
    ensures b in order && Find(order, b) <= Find(order, a)
  {
    var p :| WalkFrom(g, a, b, p);
    if |p| > 1 { WalkDescends(g, order, p, |p| - 1); }
  }
}
