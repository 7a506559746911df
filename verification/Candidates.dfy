/**
 Embedding candidates of src/iknos/core/candidates.py: the in-memory oracle ranks evidence
 nodes by their nearest proposition; the push-down asks the database for the nearest k
 propositions of each query vector and ranks the nodes they belong to.

 Both loops are proved against the set of hits they compare. Pushdown.dfy says how far the two
 answers agree.
 */
module Candidates {
  import opened Sets
  import opened TruthMaintenance
  import opened DerivationAdapter

  datatype PropId = PropId(tag: int)
  datatype ModelId = ModelId(tag: int)
  datatype VectorId = VectorId(tag: int)

  /** One embedding of a hypothesis. */
  datatype Query = Query(model: ModelId, vector: VectorId)

  /** One row of the embedding table. */
  datatype PropRow = PropRow(prop: PropId, model: ModelId, vector: VectorId)

  /** Cosine distance, which is one minus cosine similarity. Vectors are compared only within
      one embedding model. */
  type Metric = (VectorId, VectorId) -> real

  datatype Hit = Hit(node: NodeId, distance: real)

  /** What both paths read: the evidence rows and the nodes each proposition evidences. */
  datatype Store = Store(rows: set<PropRow>, nodesOf: map<PropId, set<NodeId>>, metric: Metric) {

    function NodesAt(prop: PropId): set<NodeId> {
      if prop in nodesOf then nodesOf[prop] else {}
    }

    function Distance(q: Query, r: PropRow): real {
      metric(q.vector, r.vector)
    }

    function RowsFor(q: Query): set<PropRow> {
      set r | r in rows && r.model == q.model
    }

    /** Every evidence node that a set of rows brings within reach of a query. */
    function HitsOf(q: Query, found: set<PropRow>): set<Hit> {
      set r, e | r in found && e in NodesAt(r.prop) :: Hit(e, Distance(q, r))
    }

    /** The store as one hypothesis sees it: a node is never paired with itself. */
    ghost function Without(h: NodeId): Store {
      Store(rows, map p | p in nodesOf :: nodesOf[p] - {h}, metric)
    }
  }

  // ---------------------------------------------------------------- ranking nodes

  /** Nearer first, then by id. */
  predicate Before(a: Hit, b: Hit) {
    a.distance < b.distance || (a.distance == b.distance && a.node.rank < b.node.rank)
  }

  /** `best` gives each node its smallest distance among the hits. */
  ghost predicate Smallest(best: map<NodeId, real>, hits: set<Hit>) {
    && (forall e :: e in best ==> Hit(e, best[e]) in hits)
    && (forall h :: h in hits ==> h.node in best && best[h.node] <= h.distance)
  }

  ghost predicate IsFirst(best: map<NodeId, real>, e: NodeId) {
    e in best && forall f :: f in best && f != e ==> Before(Hit(e, best[e]), Hit(f, best[f]))
  }

  lemma {:induction false} FirstExists(best: map<NodeId, real>)
    requires best.Keys != {}
    ensures exists e :: IsFirst(best, e)
    decreases best.Keys
  {
    var f :| f in best.Keys;
    var rest := best - {f};
    assert forall x :: x in best && x != f ==> x in rest && rest[x] == best[x];
    if rest.Keys == {} {
      assert IsFirst(best, f);
    } else {
      FirstExists(rest);
      var g :| IsFirst(rest, g);
      assert f.rank == g.rank ==> f == g;
      assert IsFirst(best, if Before(Hit(f, best[f]), Hit(g, best[g])) then f else g);
    }
  }

  lemma FirstIsOne(best: map<NodeId, real>, e: NodeId, f: NodeId)
    requires IsFirst(best, e) && IsFirst(best, f)
    ensures e == f
  {
  }

  /** The first `k` nodes of the ranking. */
  ghost function TopK(best: map<NodeId, real>, k: nat): seq<NodeId>
    decreases k
  {
    if k == 0 || best.Keys == {} then []
    else
      var e := First(best);
      [e] + TopK(best - {e}, k - 1)
  }

  ghost function First(best: map<NodeId, real>): (e: NodeId)
    requires best.Keys != {}
    ensures IsFirst(best, e)
  {
    FirstExists(best);
    var e :| IsFirst(best, e);
    e
  }

  lemma {:induction false} TopIsRanked(best: map<NodeId, real>, k: nat)
    ensures forall e :: e in TopK(best, k) ==> e in best
    decreases k
  {
    if k > 0 && best.Keys != {} {
      TopIsRanked(best - {First(best)}, k - 1);
    }
  }

  /** A ranking that overstates distances, but not those of the first `k`, has the same first `k`. */
  lemma {:induction false} SameTop(exact: map<NodeId, real>, other: map<NodeId, real>, k: nat)
    requires other.Keys <= exact.Keys && forall e :: e in other ==> exact[e] <= other[e]
    requires forall e :: e in TopK(exact, k) ==> e in other && other[e] == exact[e]
    ensures TopK(other, k) == TopK(exact, k)
    decreases k
  {
    if k > 0 && exact.Keys != {} {
      var e := First(exact);
      assert e in TopK(exact, k);
      assert other.Keys != {};
      assert IsFirst(other, e);
      FirstIsOne(other, e, First(other));
      TopIsRanked(exact - {e}, k - 1);
      forall f | f in TopK(exact - {e}, k - 1)
        ensures f in other - {e} && other[f] == exact[f]
      {
        assert f in TopK(exact, k);
      }
      SameTop(exact - {e}, other - {e}, k - 1);
    } else {
      assert exact.Keys == {} ==> other.Keys == {};
    }
  }

  /** A ranking of the nodes up to some point is a prefix of the whole. */
  lemma {:induction false} PrefixTop(exact: map<NodeId, real>, other: map<NodeId, real>, k: nat)
    requires other.Keys <= exact.Keys && forall e :: e in other ==> exact[e] == other[e]
    requires forall e, f :: e in other && f in exact && Before(Hit(f, exact[f]), Hit(e, exact[e])) ==> f in other
    ensures TopK(other, k) <= TopK(exact, k)
    decreases k
  {
    if k > 0 && other.Keys != {} {
      var e := First(exact);
      var g :| g in other.Keys;
      assert e in other;
      assert IsFirst(other, e);
      FirstIsOne(other, e, First(other));
      PrefixTop(exact - {e}, other - {e}, k - 1);
    }
  }

  /** A node outside the first `k` has `k` others before it. */
  lemma {:induction false} BeyondTop(best: map<NodeId, real>, k: nat, ahead: set<NodeId>, e: NodeId)
    requires e in best && e in TopK(best, k)
    requires forall f :: f in ahead ==> f in best && Before(Hit(f, best[f]), Hit(e, best[e]))
    ensures |ahead| < k
    decreases k
  {
    var f := First(best);
    if f == e {
      assert forall x :: x in ahead ==> x in best && x == e;
      assert e !in ahead;
      assert ahead == {};
    } else {
      assert e in TopK(best - {f}, k - 1);
      BeyondTop(best - {f}, k - 1, ahead - {f}, e);
      SubsetCardinality(ahead - {f}, ahead);
      assert ahead <= (ahead - {f}) + {f};
      SubsetCardinality(ahead, (ahead - {f}) + {f});
    }
  }

  /** The sort-and-slice both paths end with. */
  method TakeNearest(best: map<NodeId, real>, k: nat) returns (top: seq<NodeId>)
    ensures top == TopK(best, k)
  {
    top := [];
    var rest := best;
    while rest.Keys != {} && |top| < k
      invariant |top| <= k && TopK(best, k) == top + TopK(rest, k - |top|)
      decreases rest.Keys
    {
      var e := PickFirst(rest);
      FirstIsOne(rest, e, First(rest));
      top := top + [e];
      rest := rest - {e};
    }
  }

  method PickFirst(best: map<NodeId, real>) returns (e: NodeId)
    requires best.Keys != {}
    ensures IsFirst(best, e)
  {
    e :| e in best.Keys;
    var todo := best.Keys - {e};
    while todo != {}
      invariant e in best && e !in todo && todo <= best.Keys
      invariant forall f :: f in best && f !in todo && f != e ==> Before(Hit(e, best[e]), Hit(f, best[f]))
      decreases todo
    {
      var f :| f in todo;
      todo := todo - {f};
      assert f.rank == e.rank ==> f == e;
      if Before(Hit(f, best[f]), Hit(e, best[e])) {
        e := f;
      }
    }
  }

  // ---------------------------------------------------------------- the two paths

  /** All hits of the oracle: every comparable pair. */
  ghost function ExactHits(s: Store, queries: seq<Query>): set<Hit> {
    if queries == [] then {}
    else ExactHits(s, queries[..|queries| - 1]) + s.HitsOf(queries[|queries| - 1], s.RowsFor(queries[|queries| - 1]))
  }

  /** The answer of one push-down statement: the model's rows, sorted by distance, cut at `k`.
      Which of two tied rows survives the cut is not specified. */
  ghost predicate NearestRows(s: Store, q: Query, k: nat, found: set<PropRow>) {
    && found <= s.RowsFor(q)
    && |found| == (if k < |s.RowsFor(q)| then k else |s.RowsFor(q)|)
    && forall r, t :: r in found && t in s.RowsFor(q) - found ==> s.Distance(q, r) <= s.Distance(q, t)
  }

  /** All hits of the push-down, given the database's answer to each query. */
  ghost function PushedHits(s: Store, queries: seq<Query>, found: seq<set<PropRow>>): set<Hit>
    requires |found| == |queries|
  {
    if queries == [] then {}
    else
      var n := |queries| - 1;
      PushedHits(s, queries[..n], found[..n]) + s.HitsOf(queries[n], found[n])
  }

  ghost predicate Answers(s: Store, queries: seq<Query>, k: nat, found: seq<set<PropRow>>) {
    |found| == |queries| && forall i :: 0 <= i < |queries| ==> NearestRows(s, queries[i], k, found[i])
  }

  function HitsAt(d: real, nodes: set<NodeId>): set<Hit> {
    set e | e in nodes :: Hit(e, d)
  }

  lemma OneMoreHit(best: map<NodeId, real>, hits: set<Hit>, x: Hit)
    requires Smallest(best, hits)
    ensures Smallest(if x.node !in best || x.distance < best[x.node] then best[x.node := x.distance] else best,
                     hits + {x})
  {
  }

  lemma RowHits(s: Store, q: Query, found: set<PropRow>, r: PropRow)
    ensures s.HitsOf(q, found + {r}) == s.HitsOf(q, found) + HitsAt(s.Distance(q, r), s.NodesAt(r.prop))
  {
    hide s.NodesAt, s.Distance;
  }

  lemma NodeHits(d: real, nodes: set<NodeId>, e: NodeId)
    ensures HitsAt(d, nodes + {e}) == HitsAt(d, nodes) + {Hit(e, d)} && HitsAt(d, {}) == {}
  {
  }

  /** Folds one row into the smallest distance per node, skipping the hypothesis itself. */
  method FoldRow(nodes: set<NodeId>, d: real, h: NodeId, best: map<NodeId, real>, ghost before: set<Hit>)
    returns (best': map<NodeId, real>)
    requires Smallest(best, before)
    ensures Smallest(best', before + HitsAt(d, nodes - {h}))
  {
    hide Smallest, HitsAt;
    best' := best;
    var todo := nodes;
    ghost var done: set<NodeId> := {};
    NodeHits(d, {}, h);
    assert done - {h} == {} && before + {} == before;
    while todo != {}
      invariant todo + done == nodes && todo !! done && Smallest(best', before + HitsAt(d, done - {h}))
      decreases todo
    {
      var e :| e in todo;
      todo := todo - {e};
      if e != h {
        OneMoreHit(best', before + HitsAt(d, done - {h}), Hit(e, d));
        NodeHits(d, done - {h}, e);
        assert done + {e} - {h} == done - {h} + {e};
        assert before + HitsAt(d, done - {h}) + {Hit(e, d)} == before + HitsAt(d, done + {e} - {h});
        if e !in best' || d < best'[e] {
          best' := best'[e := d];
        }
      } else {
        assert done + {e} - {h} == done - {h};
      }
      done := done + {e};
    }
  }

  method FoldRows(s: Store, h: NodeId, q: Query, found: set<PropRow>, best: map<NodeId, real>, ghost before: set<Hit>)
    returns (best': map<NodeId, real>)
    requires Smallest(best, before)
    ensures Smallest(best', before + s.Without(h).HitsOf(q, found))
  {
    ghost var seen := s.Without(h);
    assert forall p :: seen.NodesAt(p) == s.NodesAt(p) - {h};
    assert forall r :: seen.Distance(q, r) == s.Distance(q, r);
    hide Smallest, HitsAt, s.NodesAt, s.Distance, s.Without;
    best' := best;
    var todo := found;
    ghost var done: set<PropRow> := {};
    assert seen.HitsOf(q, {}) == {};
    hide s.HitsOf;
    assert before + {} == before;
    while todo != {}
      invariant todo + done == found && Smallest(best', before + seen.HitsOf(q, done))
      decreases todo
    {
      var r :| r in todo;
      todo := todo - {r};
      best' := FoldRow(s.NodesAt(r.prop), s.Distance(q, r), h, best', before + seen.HitsOf(q, done));
      RowHits(seen, q, done, r);
      assert before + seen.HitsOf(q, done + {r})
          == before + seen.HitsOf(q, done) + HitsAt(s.Distance(q, r), s.NodesAt(r.prop) - {h});
      done := done + {r};
    }
  }

  /** The neighbours at least as similar as asked, if a floor is set. */
  function AboveFloor(best: map<NodeId, real>, floor: Option<real>): map<NodeId, real> {
    map e | e in best && (floor.None? || 1.0 - best[e] >= floor.value) :: best[e]
  }

  /** The oracle for one hypothesis: compare everything, keep the best per node, drop what is below
      the floor, rank, cut. */
  method EmbeddingKnn(s: Store, h: NodeId, queries: seq<Query>, k: int, floor: Option<real>) returns (top: seq<NodeId>)
    ensures exists best :: Smallest(best, ExactHits(s.Without(h), queries))
                        && top == if k <= 0 then [] else TopK(AboveFloor(best, floor), k)
  {
    var b: map<NodeId, real> := map[];
    for i := 0 to |queries|
      invariant Smallest(b, ExactHits(s.Without(h), queries[..i]))
    {
      assert queries[..i + 1][..i] == queries[..i];
      b := FoldRows(s, h, queries[i], s.RowsFor(queries[i]), b, ExactHits(s.Without(h), queries[..i]));
    }
    assert queries[..|queries|] == queries;
    if k <= 0 {
      top := [];
    } else {
      top := TakeNearest(AboveFloor(b, floor), k);
    }
  }

  /** Without a floor nothing is dropped. With one, the answer is the ranking without a floor up to the
      first node below it: a floor only shortens the list, and only by what is not similar enough. */
  lemma FloorShortens(best: map<NodeId, real>, floor: Option<real>, k: nat)
    ensures floor.None? ==> AboveFloor(best, floor) == best
    ensures TopK(AboveFloor(best, floor), k) <= TopK(best, k)
    ensures forall e :: e in TopK(AboveFloor(best, floor), k) <==> e in TopK(best, k) && e in AboveFloor(best, floor)
  {
    var above := AboveFloor(best, floor);
    PrefixTop(best, above, k);
    TopIsRanked(above, k);
    forall e | e in TopK(best, k) && e in above
      ensures e in TopK(above, k)
    {
      StaysInTop(best, above, k, e);
    }
  }

  /** Fewer rivals leave a node among the first `k`. */
  lemma {:induction false} StaysInTop(best: map<NodeId, real>, fewer: map<NodeId, real>, k: nat, e: NodeId)
    requires fewer.Keys <= best.Keys && (forall f :: f in fewer ==> best[f] == fewer[f])
    requires e in TopK(best, k) && e in fewer
    ensures e in TopK(fewer, k)
    decreases k
  {
    var first := First(best);
    if first in fewer {
      assert IsFirst(fewer, first);
      FirstIsOne(fewer, first, First(fewer));
      if e != first {
        StaysInTop(best - {first}, fewer - {first}, k - 1, e);
      }
    } else {
      assert e != first;
      StaysInTop(best - {first}, fewer, k - 1, e);
      OneMoreInTop(fewer, k - 1, e);
    }
  }

  lemma {:induction false} OneMoreInTop(best: map<NodeId, real>, k: nat, e: NodeId)
    requires e in TopK(best, k)
    ensures e in TopK(best, k + 1)
    decreases k
  {
    var first := First(best);
    if e != first {
      OneMoreInTop(best - {first}, k - 1, e);
    }
  }

  /** The push-down for one hypothesis, on the database's answers. */
  method EmbeddingKnnPushdown(s: Store, h: NodeId, queries: seq<Query>, k: int, found: seq<set<PropRow>>)
    returns (top: seq<NodeId>)
    requires |found| == |queries|
    ensures exists best :: Smallest(best, PushedHits(s.Without(h), queries, found))
                        && top == if k <= 0 then [] else TopK(best, k)
  {
    var b: map<NodeId, real> := map[];
    for i := 0 to |queries|
      invariant Smallest(b, PushedHits(s.Without(h), queries[..i], found[..i]))
    {
      assert queries[..i + 1][..i] == queries[..i] && found[..i + 1][..i] == found[..i];
      b := FoldRows(s, h, queries[i], found[i], b, PushedHits(s.Without(h), queries[..i], found[..i]));
    }
    assert queries[..|queries|] == queries && found[..|found|] == found;
    if k <= 0 {
      top := [];
    } else {
      top := TakeNearest(b, k);
    }
  }

  lemma {:induction false} ExactHitIs(s: Store, queries: seq<Query>, x: Hit)
    ensures x in ExactHits(s, queries) <==>
            exists i, r :: 0 <= i < |queries| && r in s.RowsFor(queries[i]) && x.node in s.NodesAt(r.prop)
                           && x.distance == s.Distance(queries[i], r)
  {
    if queries != [] {
      var n := |queries| - 1;
      ExactHitIs(s, queries[..n], x);
      if x in s.HitsOf(queries[n], s.RowsFor(queries[n])) {
        var r :| r in s.RowsFor(queries[n]) && x.node in s.NodesAt(r.prop) && x.distance == s.Distance(queries[n], r);
      }
      if x in ExactHits(s, queries[..n]) {
        var i, r :| 0 <= i < n && r in s.RowsFor(queries[..n][i]) && x.node in s.NodesAt(r.prop)
                    && x.distance == s.Distance(queries[..n][i], r);
        assert queries[..n][i] == queries[i];
      }
      if i, r :| 0 <= i < |queries| && r in s.RowsFor(queries[i]) && x.node in s.NodesAt(r.prop)
                 && x.distance == s.Distance(queries[i], r) {
        if i < n {
          assert queries[..n][i] == queries[i];
        } else {
          assert x == Hit(x.node, s.Distance(queries[n], r));
        }
      }
    }
  }

  lemma {:induction false} PushedHitIs(s: Store, queries: seq<Query>, found: seq<set<PropRow>>, x: Hit)
    requires |found| == |queries|
    ensures x in PushedHits(s, queries, found) <==>
            exists i, r :: 0 <= i < |queries| && r in found[i] && x.node in s.NodesAt(r.prop)
                           && x.distance == s.Distance(queries[i], r)
  {
    if queries != [] {
      var n := |queries| - 1;
      PushedHitIs(s, queries[..n], found[..n], x);
      if x in s.HitsOf(queries[n], found[n]) {
        var r :| r in found[n] && x.node in s.NodesAt(r.prop) && x.distance == s.Distance(queries[n], r);
      }
      if x in PushedHits(s, queries[..n], found[..n]) {
        var i, r :| 0 <= i < n && r in found[..n][i] && x.node in s.NodesAt(r.prop)
                    && x.distance == s.Distance(queries[..n][i], r);
        assert queries[..n][i] == queries[i] && found[..n][i] == found[i];
      }
      if i, r :| 0 <= i < |queries| && r in found[i] && x.node in s.NodesAt(r.prop)
                 && x.distance == s.Distance(queries[i], r) {
        if i < n {
          assert queries[..n][i] == queries[i] && found[..n][i] == found[i];
        } else {
          assert x == Hit(x.node, s.Distance(queries[n], r));
        }
      }
    }
  }
}
