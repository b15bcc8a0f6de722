/**
  Directed graphs on names: each node lists the names it points at, which need
  not be nodes themselves.
 */
module Digraph {

  type Graph = map<string, seq<string>>

  predicate Edge(g: Graph, a: string, b: string) { a in g && b in g[a] }

  predicate Walk(g: Graph, p: seq<string>) { forall i :: 0 <= i < |p| - 1 ==> Edge(g, p[i], p[i + 1]) }

  predicate Joins(g: Graph, p: seq<string>, a: string, b: string) {
    |p| >= 2 && p[0] == a && p[|p| - 1] == b && Walk(g, p)
  }

  /** `b` is reached from `a` by one or more edges. */
  ghost predicate Reach(g: Graph, a: string, b: string) { exists p :: Joins(g, p, a, b) }

  ghost predicate Cyclic(g: Graph) { exists a :: Reach(g, a, a) }

  lemma ReachEdge(g: Graph, a: string, b: string)
    requires Edge(g, a, b)
    ensures Reach(g, a, b)
  {
    assert Joins(g, [a, b], a, b);
  }

  lemma ReachCons(g: Graph, a: string, s: string, b: string)
    requires Edge(g, a, s) && Reach(g, s, b)
    ensures Reach(g, a, b)
  {
    var p :| Joins(g, p, s, b);
    assert Joins(g, [a] + p, a, b);
  }

  /** Reaching is one edge, or an edge and reaching from its end. */
  lemma ReachFirst(g: Graph, a: string, b: string)
    ensures Reach(g, a, b) <==> exists s :: Edge(g, a, s) && (s == b || Reach(g, s, b))
  {
    if Reach(g, a, b) {
      var p :| Joins(g, p, a, b);
      assert Edge(g, p[0], p[1]);
      if |p| > 2 { assert Joins(g, p[1..], p[1], b); }
    }
    if s :| Edge(g, a, s) && (s == b || Reach(g, s, b)) {
      if s == b { ReachEdge(g, a, b); } else { ReachCons(g, a, s, b); }
    }
  }

  lemma {:induction false} ReachTrans(g: Graph, a: string, b: string, c: string)
    requires Reach(g, a, b) && Reach(g, b, c)
    ensures Reach(g, a, c)
  {
    var p :| Joins(g, p, a, b);
    var q :| Joins(g, q, b, c);
    assert Joins(g, p + q[1..], a, c);
  }

  /** Part of a walk, closed up by an edge, is a cycle. */
  lemma WalkCloses(g: Graph, p: seq<string>, i: nat)
    requires i < |p| && Walk(g, p) && Edge(g, p[|p| - 1], p[i])
    ensures Joins(g, p[i..] + [p[i]], p[i], p[i]) && Cyclic(g)
  {
    var c := p[i..] + [p[i]];
    forall j | 0 <= j < |c| - 1 ensures Edge(g, c[j], c[j + 1]) {
      if i + j + 1 < |p| { assert Edge(g, p[i + j], p[i + j + 1]); }
    }
    assert Joins(g, c, p[i], p[i]);
    assert Reach(g, p[i], p[i]);
  }

  /** From a set that edges do not leave, except to names that are not nodes. */
  lemma {:induction false} ReachStays(g: Graph, inside: set<string>, a: string, b: string)
    requires a in inside && Reach(g, a, b)
    requires forall x, y :: x in inside && Edge(g, x, y) ==> y in inside || y !in g
    ensures b in inside || b !in g
  {
    var p :| Joins(g, p, a, b);
    WalkStays(g, inside, p);
  }

  lemma {:induction false} WalkStays(g: Graph, inside: set<string>, p: seq<string>)
    requires |p| > 0 && p[0] in inside && Walk(g, p)
    requires forall x, y :: x in inside && Edge(g, x, y) ==> y in inside || y !in g
    ensures p[|p| - 1] in inside || p[|p| - 1] !in g
    decreases |p|
  {
    if |p| > 1 {
      assert Edge(g, p[0], p[1]);
      if |p| > 2 { assert Edge(g, p[1], p[2]); }
      if p[1] in inside { WalkStays(g, inside, p[1..]); }
    }
  }
}
