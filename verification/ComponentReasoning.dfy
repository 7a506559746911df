/**
 The whole pass of the component reasoner in src/iknos/core/component_aggregate.py: the active
 subgraph's two annotations, aggregated over the components the SAME_AS edges connect.

 `ComponentIsGrounded` says what an aggregate is in terms of that subgraph: its nodes are the
 supported ones, its support counts their base facts and the rules that fire for them, its
 confidence is the best any of them is scored.
 */
module ComponentReasoning {
  import opened Sets
  import opened TruthMaintenance
  import opened SupportBooks
  import opened IncrementalSupport
  import opened Confidence
  import opened Valuation
  import opened DerivationAdapter
  import opened Derive
  import opened Resolve
  import opened Components
  import opened Revision

  /** The two annotations of the subgraph's supported nodes. */
  ghost function Reading(s: ActiveSubgraph, sr: Semiring, involves: map<NodeId, set<EntityId>>): Annotated
    requires InputOf(s, {}, sr).InRange()
  {
    Annotated(involves, map n | n in SupportOf(s) :: CountOf(s, n), LayerB(s, sr))
  }

  ghost function CountOf(s: ActiveSubgraph, n: NodeId): nat {
    Groundings(s.graph.baseFacts, s.graph.Rules(), SupportOf(s), n)
  }

  /** Layer A by the incremental oracle, Layer B by valuation. */
  method Annotate(s: ActiveSubgraph, sr: Semiring) returns (counts: map<NodeId, int>, confidence: map<NodeId, real>)
    requires InputOf(s, {}, sr).InRange()
    ensures counts.Keys == SupportOf(s) && forall n :: n in counts ==> counts[n] == CountOf(s, n)
    ensures confidence == LayerB(s, sr)
  {
    hide *;
    var oracle := new IncrementalOracle();
    var supported := oracle.Apply(s.graph);
    SupportUnfolds(s);
    counts := map[];
    var todo := supported;
    while todo != {}
      modifies {}
      invariant todo <= supported && counts.Keys == supported - todo
      invariant forall n :: n in counts ==> counts[n] == CountOf(s, n)
      decreases todo
    {
      var n :| n in todo;
      todo := todo - {n};
      var count := oracle.SupportCount(n);
      CountUnfolds(s, n);
      counts := counts[n := count];
    }
    RangeIgnoresSupport(s, supported, sr);
    var r, rounds := Valuate(InputOf(s, supported, sr));
    SameFixpoint(s, sr, r.confidence);
    confidence := r.confidence;
  }

  lemma CountUnfolds(s: ActiveSubgraph, n: NodeId)
    ensures CountOf(s, n) == Groundings(s.graph.baseFacts, s.graph.Rules(), SupportOf(s), n)
  {
  }

  /** ... and both over the components that union-find makes of the SAME_AS edges. */
  method AggregateActive(s: ActiveSubgraph, sr: Semiring, involves: map<NodeId, set<EntityId>>, sameAs: seq<Pair>)
    returns (canonical: Canonical, result: map<EntityId, Evidence>)
    requires InputOf(s, {}, sr).InRange()
    ensures Canonizes(SeqToSet(sameAs), canonical)
    ensures forall c :: c in result <==> Reading(s, sr, involves).NodesOf(canonical, c) != {}
    ensures forall c :: c in result ==> result[c] == EvidenceOf(Reading(s, sr, involves), canonical, c)
  {
    hide *;
    var counts, confidence := Annotate(s, sr);
    ReadingIs(s, sr, involves, counts);
    canonical, result := Aggregate(Annotated(involves, counts, confidence), sameAs);
  }

  lemma ReadingIs(s: ActiveSubgraph, sr: Semiring, involves: map<NodeId, set<EntityId>>, counts: map<NodeId, int>)
    requires InputOf(s, {}, sr).InRange()
    requires counts.Keys == SupportOf(s) && forall n :: n in counts ==> counts[n] == CountOf(s, n)
    ensures Reading(s, sr, involves) == Annotated(involves, counts, LayerB(s, sr))
  {
    hide CountOf, LayerB;
  }

  lemma SameFixpoint(s: ActiveSubgraph, sr: Semiring, conf: map<NodeId, real>)
    requires InputOf(s, {}, sr).InRange() && LeastFixpoint(InputOf(s, SupportOf(s), sr), conf)
    ensures conf == LayerB(s, sr)
  {
    LeastFixpointIsUnique(InputOf(s, SupportOf(s), sr), conf, LayerB(s, sr));
  }

  /** The rules that fire for a node of the set. */
  ghost function RulesFiring(s: ActiveSubgraph, nodes: set<NodeId>): set<Derivation> {
    set d | d in s.graph.Rules() && d.conclusion in nodes && d.body <= SupportOf(s)
  }

  lemma {:induction false} SupportCountsGroundings(s: ActiveSubgraph, a: Annotated, nodes: set<NodeId>)
    requires forall n :: n in nodes ==> a.SupportOf(n) == CountOf(s, n)
    ensures a.Total(nodes) == |nodes * s.graph.baseFacts| + |RulesFiring(s, nodes)|
  {
    hide CountOf, a.SupportOf;
    if nodes == {} {
      NoneFire(s);
      assert nodes * s.graph.baseFacts == {};
    } else {
      var n :| n in nodes;
      var rest := nodes - {n};
      hide RulesFiring;
      SupportCountsGroundings(s, a, rest);
      TotalAnyOrder(a, nodes, n);
      OneMoreNode(s, rest, n);
      assert rest + {n} == nodes;
    }
  }

  lemma NoneFire(s: ActiveSubgraph)
    ensures RulesFiring(s, {}) == {}
  {
  }

  lemma OneMoreNode(s: ActiveSubgraph, rest: set<NodeId>, n: NodeId)
    requires n !in rest
    ensures |(rest + {n}) * s.graph.baseFacts| + |RulesFiring(s, rest + {n})|
         == |rest * s.graph.baseFacts| + |RulesFiring(s, rest)|
            + CountOf(s, n)
  {
    hide Support;
    var facts, more := rest * s.graph.baseFacts, rest + {n};
    assert more * s.graph.baseFacts == facts + if n in s.graph.baseFacts then {n} else {};
    var own := set d | d in s.graph.Rules() && d.conclusion == n && d.body <= SupportOf(s);
    assert RulesFiring(s, more) == RulesFiring(s, rest) + own;
    assert RulesFiring(s, rest) !! own;
  }

  lemma {:induction false} BestIsAttained(a: Annotated, nodes: set<NodeId>)
    requires nodes <= a.confidence.Keys && forall n :: n in nodes ==> a.confidence[n] >= 0.0
    ensures forall n :: n in nodes ==> a.confidence[n] <= a.Best(nodes)
    ensures nodes != {} ==> exists n :: n in nodes && a.Best(nodes) == a.confidence[n]
  {
    if nodes != {} {
      var n :| n in nodes;
      BestIsAttained(a, nodes - {n});
      BestAnyOrder(a, nodes, n);
    }
  }

  /** What a component's aggregate is, for the identity edges `pairs`: its nodes are the supported
      ones that involve an entity connected to it, it has one support for each of them that is a
      base fact and for each rule that fires for one, and the confidence of the best of them. */
  lemma ComponentIsGrounded(s: ActiveSubgraph, sr: Semiring, involves: map<NodeId, set<EntityId>>, pairs: set<Pair>,
                            canonical: Canonical, c: EntityId, e: Evidence)
    requires InputOf(s, {}, sr).InRange() && Canonizes(pairs, canonical)
    requires RepOf(canonical, c) == c && e == EvidenceOf(Reading(s, sr, involves), canonical, c)
    ensures forall n :: n in e.nodes
                   <==> n in involves && n in SupportOf(s) && exists x :: x in involves[n] && Linked(pairs, x, c)
    ensures e.support == |e.nodes * s.graph.baseFacts| + |RulesFiring(s, e.nodes)|
    ensures e.nodes <= LayerB(s, sr).Keys
    ensures forall n :: n in e.nodes ==> LayerB(s, sr)[n] <= e.confidence
    ensures e.nodes != {} ==> exists n :: n in e.nodes && e.confidence == LayerB(s, sr)[n]
  {
    var a := Reading(s, sr, involves);
    forall n
      ensures n in e.nodes <==> n in involves && n in SupportOf(s) && exists x :: x in involves[n] && Linked(pairs, x, c)
    {
      NodeOfComponent(s, sr, involves, pairs, canonical, c, n);
    }
    SupportCountsGroundings(s, a, e.nodes);
    BestIsAttained(a, e.nodes);
  }

  lemma NodeOfComponent(s: ActiveSubgraph, sr: Semiring, involves: map<NodeId, set<EntityId>>, pairs: set<Pair>,
                        canonical: Canonical, c: EntityId, n: NodeId)
    requires InputOf(s, {}, sr).InRange() && Canonizes(pairs, canonical) && RepOf(canonical, c) == c
    ensures n in Reading(s, sr, involves).NodesOf(canonical, c)
       <==> n in involves && n in SupportOf(s) && exists x :: x in involves[n] && Linked(pairs, x, c)
  {
    var a := Reading(s, sr, involves);
    GroundedIffCounted(s.graph.baseFacts, s.graph.Rules(), n);
    CountUnfolds(s, n);
    hide LayerB, Support, Groundings, Linked, RepOf, Canonizes;
    assert a.SupportOf(n) > 0 <==> n in SupportOf(s);
    if x :| n in involves && n in SupportOf(s) && x in involves[n] && Linked(pairs, x, c) {
      RepresentativesTellApart(pairs, canonical, x, c);
      assert Mention(n, x) in a.Mentions();
    }
    if n in a.NodesOf(canonical, c) {
      var m :| m in a.Mentions() && RepOf(canonical, m.entity) == c && m.node == n;
      RepresentativesTellApart(pairs, canonical, m.entity, c);
    }
  }
}
