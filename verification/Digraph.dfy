/**
 Walks and reachability in a finite directed graph, shared by the argument graphs of the
 adjudication core and the part-of graph.
 */
module Digraph {
  import opened Sets

  ghost predicate Walk<N(!new)>(edges: set<(N, N)>, p: seq<N>) {
    p != [] && forall i :: 0 <= i < |p| - 1 ==> (p[i], p[i + 1]) in edges
  }

  ghost predicate WalkFrom<N(!new)>(edges: set<(N, N)>, p: seq<N>, u: N, v: N) {
    Walk(edges, p) && p[0] == u && p[|p| - 1] == v
  }

  /** `v` is reached from `u` along one or more edges. */
  ghost predicate Reaches<N(!new)>(edges: set<(N, N)>, u: N, v: N) {
    exists p :: WalkFrom(edges, p, u, v) && |p| > 1
  }

  ghost predicate Acyclic<N(!new)>(edges: set<(N, N)>) {
    forall u :: !Reaches(edges, u, u)
  }

  lemma EdgeReaches<N(!new)>(edges: set<(N, N)>, u: N, v: N)
    requires (u, v) in edges
    ensures Reaches(edges, u, v)
  {
    assert WalkFrom(edges, [u, v], u, v);
  }

  lemma ReachesTransitive<N(!new)>(edges: set<(N, N)>, u: N, v: N, w: N)
    requires Reaches(edges, u, v) && Reaches(edges, v, w)
    ensures Reaches(edges, u, w)
  {
    var p :| WalkFrom(edges, p, u, v) && |p| > 1;
    var q :| WalkFrom(edges, q, v, w) && |q| > 1;
    assert WalkFrom(edges, p + q[1..], u, w);
  }

  /** A non-empty walk takes a first step. */
  lemma ReachesFirst<N(!new)>(edges: set<(N, N)>, u: N, w: N)
    requires Reaches(edges, u, w)
    ensures exists v :: (u, v) in edges && (v == w || Reaches(edges, v, w))
  {
    var p :| WalkFrom(edges, p, u, w) && |p| > 1;
    var v := p[1];
    assert (p[0], p[1]) in edges;
    if |p| > 2 {
      assert WalkFrom(edges, p[1..], v, w);
    }
  }

  /** ... and a last one. */
  lemma ReachesLast<N(!new)>(edges: set<(N, N)>, u: N, w: N)
    requires Reaches(edges, u, w)
    ensures exists v :: (v, w) in edges && (v == u || Reaches(edges, u, v))
  {
    var p :| WalkFrom(edges, p, u, w) && |p| > 1;
    var k := |p| - 2;
    assert (p[k], p[k + 1]) in edges;
    if |p| > 2 {
      assert WalkFrom(edges, p[..k + 1], u, p[k]);
    }
  }

  lemma ReachesMonotone<N(!new)>(edges: set<(N, N)>, edges': set<(N, N)>, u: N, w: N)
    requires edges <= edges' && Reaches(edges, u, w)
    ensures Reaches(edges', u, w)
  {
    var p :| WalkFrom(edges, p, u, w) && |p| > 1;
    assert WalkFrom(edges', p, u, w);
  }

  /** A walk longer than the set it stays in runs through a cycle of that set. */
  lemma LongWalkTurns<N(!new)>(edges: set<(N, N)>, p: seq<N>, nodes: set<N>)
    requires Walk(edges, p) && |p| > |nodes| && forall i :: 0 <= i < |p| ==> p[i] in nodes
    ensures exists u :: u in nodes && Reaches(edges, u, u)
  {
    var i, j := Pigeonhole(p, nodes);
    assert WalkFrom(edges, p[i..j + 1], p[i], p[i]);
  }
}
