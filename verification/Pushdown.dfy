/**
 How far the push-down of src/iknos/core/candidates.py keeps the contract of the in-memory
 oracle. The database cuts each query vector's answer at k propositions, not k nodes, and the
 program promises that without ties the result is a subset of the oracle's.

 `HeadIsExact` is what holds for any number of query vectors: with at most m propositions per
 evidence node, the first ceil(k / m) nodes of the exact ranking head the push-down's. With one
 query vector the push-down is a prefix of the exact ranking (`PushdownIsAPrefix`).
 `SubsetExactlyWhen` is the boundary: the subset promise holds for every store exactly when
 there is at most one query vector, one proposition per node, or one candidate asked for.
 */
module Pushdown {
  import opened Sets
  import opened TruthMaintenance
  import opened Candidates

  // ---------------------------------------------------------------- stores

  ghost function PropsOf(s: Store, e: NodeId): set<PropId> {
    set p | p in s.nodesOf && e in s.nodesOf[p]
  }

  /** The rows that evidence a node, in one model's space. */
  ghost function RowsOf(s: Store, q: Query, e: NodeId): set<PropRow> {
    set r | r in s.RowsFor(q) && e in s.NodesAt(r.prop)
  }

  /** What the schema keeps: an evidence row evidences some node, and a proposition is embedded
      at most once per model. */
  ghost predicate WellKept(s: Store) {
    && (forall r :: r in s.rows ==> s.NodesAt(r.prop) != {})
    && (forall r, t :: r in s.rows && t in s.rows && r.prop == t.prop && r.model == t.model ==> r == t)
  }

  /** No evidence node has more than `m` propositions. */
  ghost predicate AtMostProps(s: Store, m: nat) {
    forall e :: |PropsOf(s, e)| <= m
  }

  /** No two rows tie for a query vector. */
  ghost predicate DistinctDistances(s: Store, q: Query) {
    forall r, t :: r in s.RowsFor(q) && t in s.RowsFor(q) && s.Distance(q, r) == s.Distance(q, t) ==> r == t
  }

  /** One hypothesis asked of both paths, without ties: the database's answers and both sides'
      distances per node. */
  ghost predicate Compares(s: Store, m: nat, queries: seq<Query>, k: nat, found: seq<set<PropRow>>,
                           exact: map<NodeId, real>, pushed: map<NodeId, real>)
  {
    && WellKept(s) && AtMostProps(s, m) && (forall i :: 0 <= i < |queries| ==> DistinctDistances(s, queries[i]))
    && Answers(s, queries, k, found)
    && Smallest(exact, ExactHits(s, queries)) && Smallest(pushed, PushedHits(s, queries, found))
  }

  // ---------------------------------------------------------------- the head of the ranking

  lemma RowsOfOneNode(s: Store, m: nat, q: Query, e: NodeId)
    requires WellKept(s) && AtMostProps(s, m)
    ensures |RowsOf(s, q, e)| <= m
  {
    var rows := RowsOf(s, q, e);
    var props := map r | r in rows :: r.prop;
    assert props.Keys == rows;
    forall r, t | r in props && t in props && props[r] == props[t]
      ensures r == t
    {
    }
    BijectionCardinality(props);
    assert props.Values <= PropsOf(s, e);
    SubsetCardinality(props.Values, PropsOf(s, e));
  }

  /** Many rows reach many nodes: `j` of them, as soon as there are more than (j - 1) m rows. */
  lemma {:induction false} NodesOfRows(s: Store, m: nat, q: Query, found: set<PropRow>, j: nat)
    returns (nodes: set<NodeId>)
    requires WellKept(s) && AtMostProps(s, m) && found <= s.RowsFor(q)
    requires j > 0 ==> |found| > (j - 1) * m
    ensures |nodes| >= j
    ensures forall e :: e in nodes ==> exists r :: r in found && e in s.NodesAt(r.prop)
  {
    if j == 0 {
      nodes := {};
    } else {
      assert found != {} by { NotNegative(j - 1, m); }
      var r :| r in found;
      var e :| e in s.NodesAt(r.prop);
      var others := found - RowsOf(s, q, e);
      RowsOfOneNode(s, m, q, e);
      LeftOver(found, RowsOf(s, q, e));
      OneFewer(j, m);
      var rest := NodesOfRows(s, m, q, others, j - 1);
      assert e !in rest;
      nodes := rest + {e};
    }
  }

  lemma NotNegative(a: nat, b: nat)
    ensures a * b >= 0
  {
  }

  lemma OneFewer(j: nat, m: nat)
    requires j > 0
    ensures (j - 1) * m == (if j > 1 then (j - 2) * m + m else 0)
  {
  }

  lemma LeftOver<T>(a: set<T>, b: set<T>)
    ensures |a - b| >= |a| - |b|
  {
    assert a == (a - b) + (a * b);
    SubsetCardinality(a * b, b);
  }

  /** A row that was cut off has `k` strictly nearer ones. */
  lemma CutRowIsFar(s: Store, q: Query, k: nat, found: set<PropRow>, r: PropRow)
    requires NearestRows(s, q, k, found) && DistinctDistances(s, q) && r in s.RowsFor(q) && r !in found
    ensures |found| == k && forall t :: t in found ==> s.Distance(q, t) < s.Distance(q, r)
  {
    SubsetCardinality(found + {r}, s.RowsFor(q));
    forall t | t in found
      ensures s.Distance(q, t) < s.Distance(q, r)
    {
      assert s.Distance(q, t) <= s.Distance(q, r);
    }
  }

  /** A node high enough in the exact ranking keeps its distance in the push-down: the rows that
      could crowd it out reach too many nodes nearer than it. */
  lemma HeadSurvives(s: Store, m: nat, queries: seq<Query>, k: nat, found: seq<set<PropRow>>,
                     exact: map<NodeId, real>, pushed: map<NodeId, real>, j: nat, e: NodeId)
    requires Compares(s, m, queries, k, found, exact, pushed)
    requires j > 0 ==> (j - 1) * m < k
    requires e in TopK(exact, j)
    ensures e in exact && Hit(e, exact[e]) in PushedHits(s, queries, found)
  {
    TopIsRanked(exact, j);
    var x := Hit(e, exact[e]);
    ExactHitIs(s, queries, x);
    var i, r :| 0 <= i < |queries| && r in s.RowsFor(queries[i]) && e in s.NodesAt(r.prop)
                && exact[e] == s.Distance(queries[i], r);
    PushedHitIs(s, queries, found, x);
    if r !in found[i] {
      var q := queries[i];
      CutRowIsFar(s, q, k, found[i], r);
      var nearer := NodesOfRows(s, m, q, found[i], j);
      forall f | f in nearer
        ensures f in exact && Before(Hit(f, exact[f]), Hit(e, exact[e]))
      {
        var t :| t in found[i] && f in s.NodesAt(t.prop);
        ExactHitIs(s, queries, Hit(f, s.Distance(q, t)));
        assert Hit(f, s.Distance(q, t)) in ExactHits(s, queries);
      }
      BeyondTop(exact, j, nearer, e);
      assert false;
    }
  }

  lemma PushedIsExactHit(s: Store, queries: seq<Query>, k: nat, found: seq<set<PropRow>>, x: Hit)
    requires Answers(s, queries, k, found) && x in PushedHits(s, queries, found)
    ensures x in ExactHits(s, queries)
  {
    PushedHitIs(s, queries, found, x);
    ExactHitIs(s, queries, x);
    var i, r :| 0 <= i < |queries| && r in found[i] && x.node in s.NodesAt(r.prop)
                && x.distance == s.Distance(queries[i], r);
    assert NearestRows(s, queries[i], k, found[i]);
    assert r in s.RowsFor(queries[i]);
  }

  /** For any number of query vectors: with at most `m` propositions per node, the first
      ceil(k / m) nodes are the exact ones, in the exact order. */
  lemma HeadIsExact(s: Store, m: nat, queries: seq<Query>, k: nat, found: seq<set<PropRow>>,
                    exact: map<NodeId, real>, pushed: map<NodeId, real>, j: nat)
    requires Compares(s, m, queries, k, found, exact, pushed)
    requires j > 0 ==> (j - 1) * m < k
    ensures TopK(pushed, j) == TopK(exact, j)
  {
    hide NearestRows, TopK, ExactHits, PushedHits, AtMostProps, WellKept, DistinctDistances;
    forall e | e in pushed
      ensures e in exact && exact[e] <= pushed[e]
    {
      PushedIsExactHit(s, queries, k, found, Hit(e, pushed[e]));
    }
    forall e | e in TopK(exact, j)
      ensures e in pushed && pushed[e] == exact[e]
    {
      HeadSurvives(s, m, queries, k, found, exact, pushed, j, e);
      PushedIsExactHit(s, queries, k, found, Hit(e, pushed[e]));
    }
    SameTop(exact, pushed, j);
  }

  /** One proposition per evidence node: the same list. */
  lemma PushdownIsExact(s: Store, queries: seq<Query>, k: nat, found: seq<set<PropRow>>, exact: map<NodeId, real>,
                        pushed: map<NodeId, real>)
    requires Compares(s, 1, queries, k, found, exact, pushed)
    ensures TopK(pushed, k) == TopK(exact, k)
  {
    HeadIsExact(s, 1, queries, k, found, exact, pushed, k);
  }

  /** One candidate asked for: the same one, whatever the number of propositions. */
  lemma NearestIsExact(s: Store, m: nat, queries: seq<Query>, found: seq<set<PropRow>>, exact: map<NodeId, real>,
                       pushed: map<NodeId, real>)
    requires Compares(s, m, queries, 1, found, exact, pushed)
    ensures TopK(pushed, 1) == TopK(exact, 1)
  {
    HeadIsExact(s, m, queries, 1, found, exact, pushed, 1);
  }

  // ---------------------------------------------------------------- one query vector

  lemma OneQueryHits(s: Store, q: Query, found: set<PropRow>)
    ensures ExactHits(s, [q]) == s.HitsOf(q, s.RowsFor(q)) && PushedHits(s, [q], [found]) == s.HitsOf(q, found)
  {
    assert [q][..0] == [] && [found][..0] == [];
    assert ExactHits(s, []) == {} && PushedHits(s, [], []) == {};
  }

  /** One query vector, any number of propositions per node: a prefix of the exact ranking. */
  lemma PushdownIsAPrefix(s: Store, q: Query, k: nat, found: set<PropRow>, exact: map<NodeId, real>,
                          pushed: map<NodeId, real>)
    requires DistinctDistances(s, q) && NearestRows(s, q, k, found)
    requires Smallest(exact, ExactHits(s, [q])) && Smallest(pushed, PushedHits(s, [q], [found]))
    ensures TopK(pushed, k) <= TopK(exact, k)
  {
    hide TopK, ExactHits, PushedHits;
    OneQueryHits(s, q, found);
    forall e | e in pushed
      ensures e in exact && exact[e] == pushed[e]
    {
      KeepsItsDistance(s, q, k, found, exact, pushed, e);
    }
    forall e, f | e in pushed && f in exact && Before(Hit(f, exact[f]), Hit(e, exact[e]))
      ensures f in pushed
    {
      NearerComesToo(s, q, k, found, exact, pushed, e, f);
    }
    PrefixTop(exact, pushed, k);
  }

  lemma KeepsItsDistance(s: Store, q: Query, k: nat, found: set<PropRow>, exact: map<NodeId, real>,
                         pushed: map<NodeId, real>, e: NodeId)
    requires DistinctDistances(s, q) && NearestRows(s, q, k, found) && e in pushed
    requires Smallest(exact, s.HitsOf(q, s.RowsFor(q))) && Smallest(pushed, s.HitsOf(q, found))
    ensures e in exact && exact[e] == pushed[e]
  {
    assert Hit(e, pushed[e]) in s.HitsOf(q, found);
    var r :| r in found && e in s.NodesAt(r.prop) && pushed[e] == s.Distance(q, r);
    assert Hit(e, s.Distance(q, r)) in s.HitsOf(q, s.RowsFor(q));
    assert Hit(e, exact[e]) in s.HitsOf(q, s.RowsFor(q));
    var t :| t in s.RowsFor(q) && e in s.NodesAt(t.prop) && exact[e] == s.Distance(q, t);
    if t in found {
      assert Hit(e, s.Distance(q, t)) in s.HitsOf(q, found);
    } else {
      CutRowIsFar(s, q, k, found, t);
    }
  }

  lemma NearerComesToo(s: Store, q: Query, k: nat, found: set<PropRow>, exact: map<NodeId, real>,
                       pushed: map<NodeId, real>, e: NodeId, f: NodeId)
    requires DistinctDistances(s, q) && NearestRows(s, q, k, found) && e in pushed && f in exact && e in exact
    requires Smallest(exact, s.HitsOf(q, s.RowsFor(q))) && Smallest(pushed, s.HitsOf(q, found))
    requires exact[e] == pushed[e] && exact[f] <= exact[e]
    ensures f in pushed
  {
    assert Hit(e, pushed[e]) in s.HitsOf(q, found);
    var r :| r in found && e in s.NodesAt(r.prop) && pushed[e] == s.Distance(q, r);
    assert Hit(f, exact[f]) in s.HitsOf(q, s.RowsFor(q));
    var t :| t in s.RowsFor(q) && f in s.NodesAt(t.prop) && exact[f] == s.Distance(q, t);
    if t in found {
      assert Hit(f, s.Distance(q, t)) in s.HitsOf(q, found);
    } else {
      CutRowIsFar(s, q, k, found, t);
    }
  }

  // ---------------------------------------------------------------- the boundary

  ghost predicate Within(pushed: map<NodeId, real>, exact: map<NodeId, real>, k: nat) {
    forall e :: e in TopK(pushed, k) ==> e in TopK(exact, k)
  }

  /** The documented promise for up to `q` query vectors and up to `m` propositions per node. */
  ghost predicate AlwaysASubset(q: nat, m: nat, k: nat) {
    forall s, queries, found, exact, pushed {:trigger Compares(s, m, queries, k, found, exact, pushed)}
      | Compares(s, m, queries, k, found, exact, pushed) && |queries| <= q :: Within(pushed, exact, k)
  }

  /** The promise holds of every store exactly when there is at most one query vector, one
      proposition per node, or one candidate asked for. */
  lemma SubsetExactlyWhen(q: nat, m: nat, k: nat)
    ensures AlwaysASubset(q, m, k) <==> q <= 1 || m <= 1 || k <= 1
  {
    hide TopK, Compares, CrowdedStore, CrowdedAnswers;
    if q <= 1 || m <= 1 || k <= 1 {
      forall s, queries, found, exact, pushed | Compares(s, m, queries, k, found, exact, pushed) && |queries| <= q
        ensures Within(pushed, exact, k)
      {
        SubsetWhen(s, m, queries, k, found, exact, pushed);
      }
    } else {
      var exact, pushed := CrowdedOut(m, k);
      assert !Within(pushed, exact, k);
    }
  }

  lemma SubsetWhen(s: Store, m: nat, queries: seq<Query>, k: nat, found: seq<set<PropRow>>,
                   exact: map<NodeId, real>, pushed: map<NodeId, real>)
    requires Compares(s, m, queries, k, found, exact, pushed) && (|queries| <= 1 || m <= 1 || k <= 1)
    ensures Within(pushed, exact, k)
  {
    hide TopK, NearestRows, AtMostProps, WellKept, DistinctDistances;
    if m <= 1 || k <= 1 {
      assert k > 0 ==> (k - 1) * m < k by {
        if m == 0 || k <= 1 {
        } else {
          assert m == 1;
        }
      }
      HeadIsExact(s, m, queries, k, found, exact, pushed, k);
    } else if |queries| == 1 {
      assert queries == [queries[0]] && found == [found[0]];
      PushdownIsAPrefix(s, queries[0], k, found[0], exact, pushed);
    } else {
      NothingIsPushed(s, queries, found, pushed);
      TopIsRanked(pushed, k);
    }
  }

  lemma NothingIsPushed(s: Store, queries: seq<Query>, found: seq<set<PropRow>>, pushed: map<NodeId, real>)
    requires queries == [] && found == [] && Smallest(pushed, PushedHits(s, queries, found))
    ensures pushed.Keys == {}
  {
  }

  // ---------------------------------------------------------------- a crowded store

  /** Row t carries proposition t. Rows 0 and 1 evidence node 1, every other row t node t. */
  function CrowdedRow(t: int): PropRow {
    PropRow(PropId(t), ModelId(0), VectorId(t))
  }

  function CrowdedNode(t: int): NodeId {
    NodeId(if t == 0 then 1 else t)
  }

  const NEAR := Query(ModelId(0), VectorId(-1))
  const FAR := Query(ModelId(0), VectorId(-2))

  /** The first query sees row t at distance t. The second sees only row k + 1 at that distance
      and the others, in the same order, beyond it. Only the order of the distances matters. */
  function CrowdedMetric(k: nat): Metric {
    (q: VectorId, v: VectorId) => if q.tag == -1 || v.tag == k + 1 then v.tag as real else (k + 2 + v.tag) as real
  }

  ghost function RowsBelow(n: nat): set<PropRow> {
    set t | 0 <= t < n :: CrowdedRow(t)
  }

  ghost function PropsBelow(n: nat): set<PropId> {
    set t | 0 <= t < n :: PropId(t)
  }

  ghost function CrowdedStore(k: nat): Store {
    Store(RowsBelow(k + 2), map p | p in PropsBelow(k + 2) :: {CrowdedNode(p.tag)}, CrowdedMetric(k))
  }

  ghost function CrowdedAnswers(k: nat): seq<set<PropRow>>
    requires k > 0
  {
    [RowsBelow(k), RowsBelow(k - 1) + {CrowdedRow(k + 1)}]
  }

  lemma {:induction false} RowsBelowSize(n: nat)
    ensures |RowsBelow(n)| == n
  {
    if n > 0 {
      RowsBelowSize(n - 1);
      assert RowsBelow(n) == RowsBelow(n - 1) + {CrowdedRow(n - 1)};
    } else {
      assert RowsBelow(0) == {};
    }
  }

  lemma RowBelow(n: nat, r: PropRow)
    ensures r in RowsBelow(n) <==> 0 <= r.prop.tag < n && r == CrowdedRow(r.prop.tag)
  {
  }

  lemma PropBelow(n: nat, p: PropId)
    ensures p in PropsBelow(n) <==> 0 <= p.tag < n
  {
    assert p == PropId(p.tag);
  }

  /** The store, row by row. */
  ghost predicate Crowded(k: nat, s: Store) {
    && s.rows == RowsBelow(k + 2) && s.RowsFor(NEAR) == s.rows == s.RowsFor(FAR)
    && (forall p :: s.NodesAt(p) == if 0 <= p.tag < k + 2 then {CrowdedNode(p.tag)} else {})
    && (forall p :: p in s.nodesOf <==> 0 <= p.tag < k + 2)
    && (forall r :: s.Distance(NEAR, r) == r.vector.tag as real)
    && (forall r :: s.Distance(FAR, r) == (if r.vector.tag == k + 1 then r.vector.tag else k + 2 + r.vector.tag) as real)
  }

  lemma CrowdedIs(k: nat)
    ensures Crowded(k, CrowdedStore(k))
  {
    var s := CrowdedStore(k);
    forall p
      ensures p in s.nodesOf <==> 0 <= p.tag < k + 2
      ensures s.NodesAt(p) == if 0 <= p.tag < k + 2 then {CrowdedNode(p.tag)} else {}
    {
      PropBelow(k + 2, p);
    }
  }

  lemma CrowdedIsWellKept(k: nat, m: nat)
    requires m >= 2
    ensures WellKept(CrowdedStore(k)) && AtMostProps(CrowdedStore(k), m)
    ensures DistinctDistances(CrowdedStore(k), NEAR) && DistinctDistances(CrowdedStore(k), FAR)
  {
    var s := CrowdedStore(k);
    CrowdedIs(k);
    forall e
      ensures |PropsOf(s, e)| <= m
    {
      assert PropsOf(s, e) <= {PropId(0), PropId(e.rank)};
      SubsetCardinality(PropsOf(s, e), {PropId(0), PropId(e.rank)});
    }
  }

  lemma CrowdedIsAnswered(k: nat)
    requires k >= 2
    ensures Answers(CrowdedStore(k), [NEAR, FAR], k, CrowdedAnswers(k))
  {
    CrowdedNear(k);
    CrowdedFar(k);
    hide NearestRows;
  }

  lemma CrowdedNear(k: nat)
    ensures NearestRows(CrowdedStore(k), NEAR, k, RowsBelow(k))
  {
    var s := CrowdedStore(k);
    CrowdedIs(k);
    RowsBelowSize(k);
    RowsBelowSize(k + 2);
    hide CrowdedStore, RowsBelow, s.RowsFor, s.Distance, s.NodesAt;
    forall r
      ensures r in RowsBelow(k) <==> 0 <= r.prop.tag < k && r == CrowdedRow(r.prop.tag)
      ensures r in RowsBelow(k + 2) <==> 0 <= r.prop.tag < k + 2 && r == CrowdedRow(r.prop.tag)
    {
      RowBelow(k, r);
      RowBelow(k + 2, r);
    }
  }

  lemma CrowdedFar(k: nat)
    requires k >= 2
    ensures NearestRows(CrowdedStore(k), FAR, k, RowsBelow(k - 1) + {CrowdedRow(k + 1)})
  {
    var s := CrowdedStore(k);
    CrowdedIs(k);
    RowsBelowSize(k - 1);
    RowsBelowSize(k + 2);
    hide CrowdedStore, RowsBelow, s.RowsFor, s.Distance, s.NodesAt;
    forall r
      ensures r in RowsBelow(k - 1) <==> 0 <= r.prop.tag < k - 1 && r == CrowdedRow(r.prop.tag)
      ensures r in RowsBelow(k + 2) <==> 0 <= r.prop.tag < k + 2 && r == CrowdedRow(r.prop.tag)
    {
      RowBelow(k - 1, r);
      RowBelow(k + 2, r);
    }
    assert |RowsBelow(k - 1) + {CrowdedRow(k + 1)}| == k;
  }

  lemma {:induction false} SmallestExists(hits: set<Hit>) returns (best: map<NodeId, real>)
    ensures Smallest(best, hits)
  {
    if hits == {} {
      best := map[];
    } else {
      var x :| x in hits;
      var rest := SmallestExists(hits - {x});
      OneMoreHit(rest, hits - {x}, x);
      best := if x.node !in rest || x.distance < rest[x.node] then rest[x.node := x.distance] else rest;
      assert hits - {x} + {x} == hits;
    }
  }

  /** A ranking of at most `k` nodes shows them all. */
  lemma {:induction false} ShortRankingIsWhole(best: map<NodeId, real>, k: nat)
    requires |best.Keys| <= k
    ensures forall e :: e in best ==> e in TopK(best, k)
    decreases k
  {
    if best.Keys != {} {
      var f := First(best);
      assert (best - {f}).Keys == best.Keys - {f};
      ShortRankingIsWhole(best - {f}, k - 1);
    }
  }

  ghost function Ids(n: nat): set<NodeId> {
    set t: nat | 1 <= t <= n :: NodeId(t)
  }

  lemma {:induction false} IdsSize(n: nat)
    ensures |Ids(n)| == n
  {
    if n > 0 {
      IdsSize(n - 1);
      assert Ids(n) == Ids(n - 1) + {NodeId(n)};
    } else {
      assert Ids(0) == {};
    }
  }

  /** The oracle puts the nodes 1 to k before node k + 1. */
  lemma CrowdedExact(k: nat, exact: map<NodeId, real>)
    requires k >= 2 && Smallest(exact, ExactHits(CrowdedStore(k), [NEAR, FAR]))
    ensures NodeId(k + 1) !in TopK(exact, k)
  {
    var s, last := CrowdedStore(k), NodeId(k + 1);
    CrowdedIs(k);
    hide CrowdedStore, TopK, ExactHits;
    if last in TopK(exact, k) {
      TopIsRanked(exact, k);
      CrowdedLastHit(k, exact[last]);
      forall e | e in Ids(k)
        ensures e in exact && Before(Hit(e, exact[e]), Hit(last, exact[last]))
      {
        CrowdedHit(k, e.rank);
        assert Hit(e, e.rank as real) in ExactHits(s, [NEAR, FAR]);
      }
      IdsSize(k);
      BeyondTop(exact, k, Ids(k), last);
      assert false;
    }
  }

  lemma CrowdedHit(k: nat, t: nat)
    requires 1 <= t <= k
    ensures Hit(NodeId(t), t as real) in ExactHits(CrowdedStore(k), [NEAR, FAR])
  {
    CrowdedIs(k);
    ExactHitIs(CrowdedStore(k), [NEAR, FAR], Hit(NodeId(t), t as real));
    assert CrowdedRow(t) in CrowdedStore(k).RowsFor([NEAR, FAR][0]);
  }

  lemma CrowdedLastHit(k: nat, d: real)
    requires k >= 2 && Hit(NodeId(k + 1), d) in ExactHits(CrowdedStore(k), [NEAR, FAR])
    ensures d == (k + 1) as real
  {
    CrowdedIs(k);
    ExactHitIs(CrowdedStore(k), [NEAR, FAR], Hit(NodeId(k + 1), d));
  }

  lemma CrowdedLastPushed(k: nat)
    requires k >= 2
    ensures Hit(NodeId(k + 1), (k + 1) as real) in PushedHits(CrowdedStore(k), [NEAR, FAR], CrowdedAnswers(k))
  {
    var s, found := CrowdedStore(k), CrowdedAnswers(k);
    CrowdedIs(k);
    hide CrowdedStore, PushedHits, RowsBelow, s.NodesAt, s.Distance;
    PushedHitIs(s, [NEAR, FAR], found, Hit(NodeId(k + 1), (k + 1) as real));
    assert CrowdedRow(k + 1) in found[1] && [NEAR, FAR][1] == FAR;
  }

  lemma CrowdedPushedHit(k: nat, x: Hit)
    requires k >= 2 && x in PushedHits(CrowdedStore(k), [NEAR, FAR], CrowdedAnswers(k))
    ensures x.node in Ids(k - 1) + {NodeId(k + 1)}
  {
    var s, found := CrowdedStore(k), CrowdedAnswers(k);
    CrowdedIs(k);
    PushedHitIs(s, [NEAR, FAR], found, x);
    var i: nat, r: PropRow :| i < 2 && r in found[i] && x.node in s.NodesAt(r.prop);
    RowBelow(k, r);
    RowBelow(k - 1, r);
    hide CrowdedStore, PushedHits, RowsBelow, s.NodesAt, s.Distance, s.RowsFor;
    assert 0 <= r.prop.tag < k || r.prop.tag == k + 1;
    assert x.node == CrowdedNode(r.prop.tag);
  }

  /** The push-down has node k + 1 and at most k - 1 others. */
  lemma CrowdedPushed(k: nat, pushed: map<NodeId, real>)
    requires k >= 2 && Smallest(pushed, PushedHits(CrowdedStore(k), [NEAR, FAR], CrowdedAnswers(k)))
    ensures NodeId(k + 1) in TopK(pushed, k)
  {
    var s, found := CrowdedStore(k), CrowdedAnswers(k);
    CrowdedIs(k);
    hide CrowdedStore, CrowdedAnswers, TopK, PushedHits, Ids;
    CrowdedLastPushed(k);
    assert NodeId(k + 1) in pushed;
    forall e | e in pushed
      ensures e in Ids(k - 1) + {NodeId(k + 1)}
    {
      CrowdedPushedHit(k, Hit(e, pushed[e]));
    }
    IdsSize(k - 1);
    SubsetCardinality(pushed.Keys, Ids(k - 1) + {NodeId(k + 1)});
    ShortRankingIsWhole(pushed, k);
  }

  /** Two query vectors and one node with two propositions are enough to break the promise, for
      every k above one. */
  lemma CrowdedOut(m: nat, k: nat) returns (exact: map<NodeId, real>, pushed: map<NodeId, real>)
    requires m >= 2 && k >= 2
    ensures Compares(CrowdedStore(k), m, [NEAR, FAR], k, CrowdedAnswers(k), exact, pushed)
    ensures NodeId(k + 1) in TopK(pushed, k) && NodeId(k + 1) !in TopK(exact, k)
  {
    hide CrowdedStore, CrowdedAnswers, WellKept, AtMostProps, DistinctDistances, Answers, Smallest, ExactHits, PushedHits,
         TopK;
    var s, found := CrowdedStore(k), CrowdedAnswers(k);
    CrowdedIsWellKept(k, m);
    CrowdedIsAnswered(k);
    CrowdedAnswersTwo(k);
    exact := SmallestExists(ExactHits(s, [NEAR, FAR]));
    pushed := SmallestExists(PushedHits(s, [NEAR, FAR], found));
    CrowdedExact(k, exact);
    CrowdedPushed(k, pushed);
  }

  lemma CrowdedAnswersTwo(k: nat)
    requires k > 0
    ensures |CrowdedAnswers(k)| == 2
  {
  }
}
