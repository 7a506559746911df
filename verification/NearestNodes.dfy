/**
 What the embedding oracle of src/iknos/core/candidates.py answers, in terms of the rows and the
 query vectors alone. `NearestExactly` is the answer: a node is in it exactly when it is no farther
 than the floor allows and fewer than k such nodes come before it, and the list is in that order.
 */
module NearestNodes {
  import opened TruthMaintenance
  import opened DerivationAdapter
  import opened Candidates

  /** Some query vector and some row of its model that evidences the node lie `d` apart. */
  ghost predicate SeenAt(s: Store, queries: seq<Query>, e: NodeId, d: real) {
    exists i, r :: 0 <= i < |queries| && r in s.rows && r.model == queries[i].model
                && r.prop in s.nodesOf && e in s.nodesOf[r.prop] && s.metric(queries[i].vector, r.vector) == d
  }

  /** The nearest of its rows lies `d` away. */
  ghost predicate LiesAt(s: Store, queries: seq<Query>, e: NodeId, d: real) {
    SeenAt(s, queries, e, d) && forall x :: SeenAt(s, queries, e, x) ==> d <= x
  }

  /** Another node than the hypothesis, near enough for the floor. */
  ghost predicate Eligible(s: Store, h: NodeId, queries: seq<Query>, floor: Option<real>, e: NodeId, d: real) {
    e != h && LiesAt(s, queries, e, d) && (floor.Some? ==> floor.value + d <= 1.0)
  }

  /** Nearer, or as near with the smaller id. */
  ghost predicate Precedes(d: real, e: NodeId, d': real, e': NodeId) {
    if d == d' then e.rank < e'.rank else d < d'
  }

  // ---------------------------------------------------------------- the first k of a ranking

  /** The nodes ranked before `e`. */
  ghost function Ahead(best: map<NodeId, real>, e: NodeId): set<NodeId>
    requires e in best
  {
    set f | f in best && Precedes(best[f], f, best[e], e)
  }

  lemma FirstPrecedes(best: map<NodeId, real>, f: NodeId)
    requires f in best && f != First(best)
    ensures First(best) in best && Precedes(best[First(best)], First(best), best[f], f)
  {
    assert IsFirst(best, First(best));
  }

  lemma {:induction false} InTopExactly(best: map<NodeId, real>, k: nat, e: NodeId)
    requires e in best
    ensures e in TopK(best, k) <==> |Ahead(best, e)| < k
    decreases k
  {
    if k > 0 {
      var first := First(best);
      assert IsFirst(best, first);
      if e == first {
        NoneAhead(best, e);
      } else {
        FirstPrecedes(best, e);
        InTopExactly(best - {first}, k - 1, e);
        assert Ahead(best - {first}, e) == Ahead(best, e) - {first};
      }
    }
  }

  lemma NoneAhead(best: map<NodeId, real>, e: NodeId)
    requires e in best && e == First(best)
    ensures Ahead(best, e) == {}
  {
    forall f | f in best
      ensures f !in Ahead(best, e)
    {
      if f != e {
        FirstPrecedes(best, f);
      }
    }
  }

  lemma {:induction false} TopIsOrdered(best: map<NodeId, real>, k: nat, i: nat, j: nat)
    requires i < j < |TopK(best, k)|
    ensures var top := TopK(best, k);
            top[i] in best && top[j] in best && Precedes(best[top[i]], top[i], best[top[j]], top[j])
    decreases k
  {
    var first, rest := First(best), best - {First(best)};
    TopIsRanked(rest, k - 1);
    assert TopK(best, k) == [first] + TopK(rest, k - 1);
    if i == 0 {
      assert TopK(best, k)[j] in TopK(rest, k - 1);
      FirstPrecedes(best, TopK(best, k)[j]);
    } else {
      TopIsOrdered(rest, k - 1, i - 1, j - 1);
    }
  }

  // ---------------------------------------------------------------- distances

  lemma HitIsSeen(s: Store, h: NodeId, queries: seq<Query>, e: NodeId, d: real)
    ensures Hit(e, d) in ExactHits(s.Without(h), queries) <==> e != h && SeenAt(s, queries, e, d)
  {
    var seen := s.Without(h);
    ExactHitIs(seen, queries, Hit(e, d));
    if i, r :| 0 <= i < |queries| && r in seen.RowsFor(queries[i]) && e in seen.NodesAt(r.prop)
               && d == seen.Distance(queries[i], r) {
      assert r.prop in s.nodesOf && e in s.nodesOf[r.prop];
      assert e != h && SeenAt(s, queries, e, d);
    }
    if e != h && SeenAt(s, queries, e, d) {
      var i, r :| 0 <= i < |queries| && r in s.rows && r.model == queries[i].model
                  && r.prop in s.nodesOf && e in s.nodesOf[r.prop] && s.metric(queries[i].vector, r.vector) == d;
      assert r in seen.RowsFor(queries[i]) && e in seen.NodesAt(r.prop) && d == seen.Distance(queries[i], r);
    }
  }

  lemma SmallestIsNearest(s: Store, h: NodeId, queries: seq<Query>, best: map<NodeId, real>, e: NodeId, d: real)
    requires Smallest(best, ExactHits(s.Without(h), queries))
    ensures e in best && best[e] == d <==> e != h && LiesAt(s, queries, e, d)
  {
    hide ExactHits, s.Without, SeenAt;
    forall x
      ensures Hit(e, x) in ExactHits(s.Without(h), queries) <==> e != h && SeenAt(s, queries, e, x)
    {
      HitIsSeen(s, h, queries, e, x);
    }
    if e in best {
      HitIsSeen(s, h, queries, e, best[e]);
    }
  }

  lemma RankedIsEligible(s: Store, h: NodeId, queries: seq<Query>, floor: Option<real>, best: map<NodeId, real>,
                         e: NodeId, d: real)
    requires Smallest(best, ExactHits(s.Without(h), queries))
    ensures e in AboveFloor(best, floor) && AboveFloor(best, floor)[e] == d <==> Eligible(s, h, queries, floor, e, d)
  {
    hide Smallest, ExactHits, s.Without, LiesAt;
    SmallestIsNearest(s, h, queries, best, e, d);
  }

  /** The oracle's answer: the eligible nodes that fewer than k eligible ones precede, in order. */
  lemma NearestExactly(s: Store, h: NodeId, queries: seq<Query>, k: nat, floor: Option<real>, best: map<NodeId, real>,
                       top: seq<NodeId>, e: NodeId, d: real, ahead: set<NodeId>)
    requires Smallest(best, ExactHits(s.Without(h), queries)) && top == TopK(AboveFloor(best, floor), k)
    requires forall f :: f in ahead
                    <==> exists x :: Eligible(s, h, queries, floor, f, x) && Precedes(x, f, d, e)
    ensures e in top ==> exists x :: Eligible(s, h, queries, floor, e, x)
    ensures Eligible(s, h, queries, floor, e, d) ==> (e in top <==> |ahead| < k)
    ensures forall i, j, x, y {:trigger Precedes(x, top[i], y, top[j])}
              | 0 <= i < j < |top| && Eligible(s, h, queries, floor, top[i], x) && Eligible(s, h, queries, floor, top[j], y) ::
              Precedes(x, top[i], y, top[j])
  {
    hide Smallest, ExactHits, s.Without, Eligible, AboveFloor, Precedes;
    var ranked := AboveFloor(best, floor);
    forall f, x
      ensures f in ranked && ranked[f] == x <==> Eligible(s, h, queries, floor, f, x)
    {
      RankedIsEligible(s, h, queries, floor, best, f, x);
    }
    TopIsRanked(ranked, k);
    if e in top {
      assert Eligible(s, h, queries, floor, e, ranked[e]);
    }
    if Eligible(s, h, queries, floor, e, d) {
      InTopExactly(ranked, k, e);
      AheadIs(s, h, queries, floor, ranked, e, d, ahead);
    }
    forall i, j, x, y | 0 <= i < j < |top| && Eligible(s, h, queries, floor, top[i], x)
                     && Eligible(s, h, queries, floor, top[j], y)
      ensures Precedes(x, top[i], y, top[j])
    {
      TopIsOrdered(ranked, k, i, j);
    }
  }

  lemma AheadIs(s: Store, h: NodeId, queries: seq<Query>, floor: Option<real>, ranked: map<NodeId, real>,
                e: NodeId, d: real, ahead: set<NodeId>)
    requires forall f, x {:trigger Eligible(s, h, queries, floor, f, x)} ::
               f in ranked && ranked[f] == x <==> Eligible(s, h, queries, floor, f, x)
    requires e in ranked && ranked[e] == d
    requires forall f :: f in ahead
                    <==> exists x :: Eligible(s, h, queries, floor, f, x) && Precedes(x, f, d, e)
    ensures Ahead(ranked, e) == ahead
  {
    hide Eligible, Precedes;
    forall f
      ensures f in Ahead(ranked, e) <==> f in ahead
    {
      if f in ranked {
        assert Eligible(s, h, queries, floor, f, ranked[f]);
      }
    }
  }
}
