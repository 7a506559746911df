/**
 The deduce/induce operator of src/iknos/core/derive.py: a proposed derivation is valued on
 the graph augmented in memory, then written as rows.

 `WrittenAsValued` is the contract between the two halves: reassembling the written rows gives the
 graph the conclusion was valued on, provided the new rule takes effect. `WriteAgreesWithValue`
 draws the line where every written edge comes back: the stored annotations are those of the
 reassembled graph exactly when there is a premise and either the conclusion's box is active or
 some premise is unsupported. Deriver.dfy adds the load, which leaves edges out.
 */
module Derive {
  import opened Sets
  import opened TruthMaintenance
  import opened SupportBooks
  import opened IncrementalSupport
  import opened Confidence
  import opened Valuation
  import opened DerivationOrder
  import opened DerivationAdapter
  import opened RowOrder

  // ---------------------------------------------------------------- valuing a proposal

  /** Layer B over the support Layer A certifies. */
  ghost function LayerB(s: ActiveSubgraph, sr: Semiring): (conf: map<NodeId, real>)
    requires InputOf(s, {}, sr).InRange()
    ensures LeastFixpoint(InputOf(s, SupportOf(s), sr), conf)
  {
    var v := InputOf(s, SupportOf(s), sr);
    ConvergesInNodeManyRounds(v);
    StableIterateIsLeast(v, |v.supported|);
    Iterate(v, |v.supported|)
  }

  /** The two annotations of a node; an unfounded node has neither. */
  ghost predicate Annotates(s: ActiveSubgraph, sr: Semiring, n: NodeId, count: int, confidence: real)
    requires InputOf(s, {}, sr).InRange()
  {
    if n in SupportOf(s) then
      count == Groundings(s.graph.baseFacts, s.graph.Rules(), SupportOf(s), n) && confidence == LayerB(s, sr)[n]
    else
      count == 0 && confidence == 0.0
  }

  function Augmented(s: ActiveSubgraph, d: Derivation, strength: real): ActiveSubgraph {
    ActiveSubgraph(Graph(s.graph.baseFacts, s.graph.derivations + [d]), s.baseConfidence, s.strength[d := strength])
  }

  lemma AugmentedInRange(s: ActiveSubgraph, d: Derivation, strength: real, sr: Semiring)
    requires InputOf(s, {}, sr).InRange() && Unit(strength)
    ensures InputOf(Augmented(s, d, strength), {}, sr).InRange()
  {
  }

  lemma RangeIgnoresSupport(s: ActiveSubgraph, supported: set<NodeId>, sr: Semiring)
    requires InputOf(s, {}, sr).InRange()
    ensures InputOf(s, supported, sr).InRange()
  {
  }

  lemma ValuedByLayerB(s: ActiveSubgraph, sr: Semiring, conf: map<NodeId, real>, n: NodeId)
    requires InputOf(s, {}, sr).InRange() && LeastFixpoint(InputOf(s, SupportOf(s), sr), conf) && n in SupportOf(s)
    ensures n in conf && n in LayerB(s, sr) && conf[n] == LayerB(s, sr)[n]
  {
    hide Support;
    LeastFixpointIsUnique(InputOf(s, SupportOf(s), sr), conf, LayerB(s, sr));
  }

  lemma SupportUnfolds(s: ActiveSubgraph)
    ensures SupportOf(s) == Support(s.graph.baseFacts, s.graph.Rules())
  {
  }

  lemma AnnotatesSupported(s: ActiveSubgraph, sr: Semiring, n: NodeId)
    requires InputOf(s, {}, sr).InRange() && n in SupportOf(s)
    ensures n in LayerB(s, sr)
    ensures Annotates(s, sr, n, Groundings(s.graph.baseFacts, s.graph.Rules(), SupportOf(s), n), LayerB(s, sr)[n])
  {
    hide Support, Groundings, s.graph.Rules;
  }

  lemma AnnotatesUnsupported(s: ActiveSubgraph, sr: Semiring, n: NodeId)
    requires InputOf(s, {}, sr).InRange() && n !in SupportOf(s)
    ensures Annotates(s, sr, n, 0, 0.0)
  {
    hide Support, Groundings;
  }

  /** Values a proposed derivation on the augmented graph, which is not stored. */
  method ValueConclusion(s: ActiveSubgraph, d: Derivation, strength: real, sr: Semiring)
    returns (count: int, confidence: real)
    requires InputOf(s, {}, sr).InRange() && Unit(strength)
    ensures InputOf(Augmented(s, d, strength), {}, sr).InRange()
    ensures Annotates(Augmented(s, d, strength), sr, d.conclusion, count, confidence)
  {
    hide *;
    var augmented := Augmented(s, d, strength);
    AugmentedInRange(s, d, strength, sr);
    SupportUnfolds(augmented);
    var oracle := new IncrementalOracle();
    var supported := oracle.Apply(augmented.graph);
    if d.conclusion !in supported {
      AnnotatesUnsupported(augmented, sr, d.conclusion);
      return 0, 0.0;
    }
    RangeIgnoresSupport(augmented, supported, sr);
    var r, rounds := Valuate(InputOf(augmented, supported, sr));
    ValuedByLayerB(augmented, sr, r.confidence, d.conclusion);
    count := oracle.SupportCount(d.conclusion);
    confidence := r.confidence[d.conclusion];
    AnnotatesSupported(augmented, sr, d.conclusion);
  }

  // ---------------------------------------------------------------- the written rows

  /** One DERIVED_FROM edge per premise, all with the group id and the step strength. */
  function EdgeRows(conclusion: NodeId, premises: seq<NodeId>, group: GroupId, strength: real): seq<DerivedRow> {
    seq(|premises|, i requires 0 <= i < |premises| => DerivedRow(conclusion, premises[i], Some(group), strength))
  }

  /** No evidence and no edge mentions the id. */
  ghost predicate Unmentioned(baseIds: set<NodeId>, rows: seq<DerivedRow>, n: NodeId) {
    n !in baseIds && forall row :: row in rows ==> row.conclusion != n && row.antecedent != n
  }

  /** The id is new to the graph. */
  ghost predicate FreshNode(nodes: seq<NodeRow>, baseIds: set<NodeId>, rows: seq<DerivedRow>, n: NodeId) {
    RowOf(nodes, n).None? && Unmentioned(baseIds, rows, n)
  }

  lemma WrittenGroup(rows: seq<DerivedRow>, cid: NodeId, premises: seq<NodeId>, group: GroupId, strength: real)
    requires premises != [] && !HasKey(rows, Grouped(group))
    ensures var all := rows + EdgeRows(cid, premises, group, strength);
            HasKey(all, Grouped(group))
            && RuleOf(all, Grouped(group)) == Derivation(cid, set p | p in premises)
            && StrengthOfGroup(all, Grouped(group)) == strength
  {
    var written, key := EdgeRows(cid, premises, group, strength), Grouped(group);
    var all := rows + written;
    forall row | row in all && KeyOf(row) == key
      ensures row in written
    {
      HasKeyOfRow(rows, key);
    }
    assert all[|rows|] == written[0] && KeyOf(all[|rows|]) == key;
    ConclusionOfRow(all, key);
    forall a
      ensures a in BodyOf(all, key) <==> a in premises
    {
      BodyOfRows(all, key, a);
      if a in premises {
        var i :| 0 <= i < |premises| && premises[i] == a;
        assert written[i] in all;
      }
    }
    StrengthsExist(all, key);
    LowestIsOne(StrengthsOf(all, key));
    StrengthsOfRows(all, key, StrengthOfGroup(all, key));
  }

  lemma EdgesOfOneMore(cid: NodeId, premises: seq<NodeId>, group: GroupId, strength: real)
    requires premises != []
    ensures var front, last := premises[..|premises| - 1], premises[|premises| - 1];
            EdgeRows(cid, premises, group, strength)
            == EdgeRows(cid, front, group, strength) + [DerivedRow(cid, last, Some(group), strength)]
  {
  }

  /** New edges of a new group leave every other group as it is. */
  lemma {:induction false} EdgesKeepConclusion(rows: seq<DerivedRow>, cid: NodeId, premises: seq<NodeId>,
                                               group: GroupId, strength: real, key: GroupKey)
    requires HasKey(rows, key) && key != Grouped(group)
    ensures var all := rows + EdgeRows(cid, premises, group, strength);
            HasKey(all, key) && ConclusionOf(all, key) == ConclusionOf(rows, key)
  {
    hide HasKey, ConclusionOf;
    if premises == [] {
      assert rows + EdgeRows(cid, premises, group, strength) == rows;
    } else {
      var front, last := premises[..|premises| - 1], premises[|premises| - 1];
      EdgesOfOneMore(cid, premises, group, strength);
      var before, row := rows + EdgeRows(cid, front, group, strength), DerivedRow(cid, last, Some(group), strength);
      assert rows + EdgeRows(cid, premises, group, strength) == before + [row];
      EdgesKeepConclusion(rows, cid, front, group, strength, key);
      ConclusionOfOneMore(before, row, key);
    }
  }

  lemma OtherGroup(rows: seq<DerivedRow>, cid: NodeId, premises: seq<NodeId>, group: GroupId, strength: real,
                   key: GroupKey)
    requires key != Grouped(group)
    ensures var all := rows + EdgeRows(cid, premises, group, strength);
            (HasKey(all, key) <==> HasKey(rows, key))
            && (HasKey(rows, key) ==> RuleOf(all, key) == RuleOf(rows, key)
                                      && StrengthOfGroup(all, key) == StrengthOfGroup(rows, key))
  {
    var edges := EdgeRows(cid, premises, group, strength);
    assert forall row :: row in edges ==> KeyOf(row) == Grouped(group);
    hide HasKey, BodyOf, ConclusionOf, StrengthOfGroup, EdgeRows;
    GroupIgnoresOrder(rows, rows + edges, key);
    if HasKey(rows, key) {
      EdgesKeepConclusion(rows, cid, premises, group, strength, key);
    }
  }

  /** They are met after all others. */
  lemma {:induction false} KeysOfEdges(rows: seq<DerivedRow>, cid: NodeId, premises: seq<NodeId>, group: GroupId,
                                       strength: real)
    requires !HasKey(rows, Grouped(group))
    ensures Keys(rows + EdgeRows(cid, premises, group, strength))
         == Keys(rows) + if premises == [] then [] else [Grouped(group)]
  {
    KeysAreTheGroups(rows);
    hide Keys, HasKey;
    if premises == [] {
      assert rows + EdgeRows(cid, premises, group, strength) == rows;
    } else {
      var front, last := premises[..|premises| - 1], premises[|premises| - 1];
      EdgesOfOneMore(cid, premises, group, strength);
      var before, row := rows + EdgeRows(cid, front, group, strength), DerivedRow(cid, last, Some(group), strength);
      assert rows + EdgeRows(cid, premises, group, strength) == before + [row];
      KeysOfEdges(rows, cid, front, group, strength);
      KeysOfOneMore(before, row);
    }
  }

  lemma WrittenActive(nodes: seq<NodeRow>, boxes: Option<set<BoxId>>, row: NodeRow, n: NodeId)
    ensures Active(nodes + [row], boxes, n)
       <==> if n == row.id then BoxIsActive(boxes, row.box) else Active(nodes, boxes, n)
    ensures n != row.id ==> RowOf(nodes + [row], n) == RowOf(nodes, n)
  {
    assert (nodes + [row])[..|nodes|] == nodes;
  }

  lemma OldConclusion(rows: seq<DerivedRow>, key: GroupKey, cid: NodeId)
    requires HasKey(rows, key) && forall row :: row in rows ==> row.conclusion != cid
    ensures RuleOf(rows, key).conclusion != cid
  {
    ConclusionOfRow(rows, key);
  }

  lemma OldBody(rows: seq<DerivedRow>, key: GroupKey, cid: NodeId)
    requires HasKey(rows, key) && forall row :: row in rows ==> row.antecedent != cid
    ensures cid !in RuleOf(rows, key).body
  {
    BodyOfRows(rows, key, cid);
  }

  /** The next read will see the new rule: it has edges, and its conclusion's box is active. */
  predicate TakesEffect(boxes: Option<set<BoxId>>, row: NodeRow, premises: seq<NodeId>) {
    premises != [] && BoxIsActive(boxes, row.box)
  }

  /** What the writer relies on: the ids are new. */
  ghost predicate Proposable(nodes: seq<NodeRow>, baseIds: set<NodeId>, rows: seq<DerivedRow>, row: NodeRow,
                             group: GroupId)
  {
    FreshNode(nodes, baseIds, rows, row.id) && !HasKey(rows, Grouped(group))
  }

  /** The old groups are assembled as before the write. */
  lemma {:induction false} OldGroupsStand(nodes: seq<NodeRow>, baseIds: set<NodeId>, rows: seq<DerivedRow>,
                                          boxes: Option<set<BoxId>>, row: NodeRow, premises: seq<NodeId>,
                                          group: GroupId, strength: real, k: nat)
    requires Proposable(nodes, baseIds, rows, row, group) && k <= |Keys(rows)|
    ensures var all := rows + EdgeRows(row.id, premises, group, strength);
            && k <= |Keys(all)|
            && RulesUpTo(nodes + [row], boxes, all, k) == RulesUpTo(nodes, boxes, rows, k)
            && StrengthsUpTo(nodes + [row], boxes, all, k) == StrengthsUpTo(nodes, boxes, rows, k)
  {
    var all := rows + EdgeRows(row.id, premises, group, strength);
    KeysOfEdges(rows, row.id, premises, group, strength);
    if k > 0 {
      OldGroupsStand(nodes, baseIds, rows, boxes, row, premises, group, strength, k - 1);
      OneMoreGroup(nodes, boxes, rows, k - 1);
      OneMoreGroup(nodes + [row], boxes, all, k - 1);
      var key := Keys(rows)[k - 1];
      assert Keys(all)[k - 1] == key;
      hide Keys, HasKey, BodyOf, ConclusionOf, StrengthOfGroup, Active, RulesUpTo, StrengthsUpTo, EdgeRows;
      OtherGroup(rows, row.id, premises, group, strength, key);
      OldConclusion(rows, key, row.id);
      WrittenActive(nodes, boxes, row, ConclusionOf(rows, key));
    }
  }

  // ---------------------------------------------------------------- written as valued

  /** The two subgraphs hold the same facts, rules and inputs, whatever order they list them in. */
  ghost predicate SameContent(s: ActiveSubgraph, t: ActiveSubgraph) {
    && s.graph.baseFacts == t.graph.baseFacts
    && s.baseConfidence == t.baseConfidence
    && (forall d :: d in s.graph.derivations <==> d in t.graph.derivations)
    && (forall d :: d in s.graph.derivations ==> d in s.strength && d in t.strength && s.strength[d] == t.strength[d])
  }

  lemma SameRules(s: ActiveSubgraph, t: ActiveSubgraph)
    requires SameContent(s, t)
    ensures s.graph.Rules() == t.graph.Rules() && SupportOf(s) == SupportOf(t)
  {
  }

  lemma LayerBKeys(s: ActiveSubgraph, sr: Semiring)
    requires InputOf(s, {}, sr).InRange()
    ensures LayerB(s, sr).Keys == SupportOf(s)
  {
    hide Support;
  }

  lemma SameContentExtends(s: ActiveSubgraph, t: ActiveSubgraph, sr: Semiring)
    requires SameContent(s, t)
    ensures Extends(InputOf(s, SupportOf(s), sr), InputOf(t, SupportOf(t), sr))
  {
    SameRules(s, t);
    hide Support;
  }

  lemma LayerBGrows(s: ActiveSubgraph, t: ActiveSubgraph, sr: Semiring)
    requires InputOf(s, {}, sr).InRange() && InputOf(t, {}, sr).InRange()
    requires Extends(InputOf(s, SupportOf(s), sr), InputOf(t, SupportOf(t), sr))
    ensures LayerB(s, sr).Keys == SupportOf(s) && LayerB(t, sr).Keys == SupportOf(t) && SupportOf(t) <= SupportOf(s)
    ensures forall n :: n in SupportOf(t) ==> LayerB(t, sr)[n] <= LayerB(s, sr)[n]
  {
    hide Support, LeastFixpoint, LayerB, SupportOf;
    LayerBKeys(s, sr);
    LayerBKeys(t, sr);
    ConfidenceGrows(InputOf(s, SupportOf(s), sr), InputOf(t, SupportOf(t), sr), LayerB(s, sr), LayerB(t, sr));
  }

  lemma SameLayerB(s: ActiveSubgraph, t: ActiveSubgraph, sr: Semiring)
    requires SameContent(s, t) && InputOf(s, {}, sr).InRange() && InputOf(t, {}, sr).InRange()
    ensures LayerB(s, sr) == LayerB(t, sr)
  {
    hide *;
    SameContentIsSymmetric(s, t);
    SameContentExtends(s, t, sr);
    SameContentExtends(t, s, sr);
    LayerBGrows(s, t, sr);
    LayerBGrows(t, s, sr);
    forall n | n in SupportOf(s)
      ensures LayerB(s, sr)[n] == LayerB(t, sr)[n]
    {
    }
  }

  lemma SameContentIsSymmetric(s: ActiveSubgraph, t: ActiveSubgraph)
    requires SameContent(s, t)
    ensures SameContent(t, s)
  {
  }

  lemma SameAnnotations(s: ActiveSubgraph, t: ActiveSubgraph, sr: Semiring, n: NodeId, count: int, confidence: real)
    requires SameContent(s, t) && InputOf(s, {}, sr).InRange() && InputOf(t, {}, sr).InRange()
    ensures Annotates(s, sr, n, count, confidence) <==> Annotates(t, sr, n, count, confidence)
  {
    SameRules(s, t);
    SameLayerB(s, t, sr);
    hide Support, Groundings;
  }

  lemma WrittenFacts(nodes: seq<NodeRow>, baseIds: set<NodeId>, boxes: Option<set<BoxId>>, row: NodeRow)
    requires row.id !in baseIds
    ensures ActiveAmong(nodes + [row], boxes, baseIds) == ActiveAmong(nodes, boxes, baseIds)
    ensures BaseConfidences(nodes + [row], ActiveAmong(nodes, boxes, baseIds))
         == BaseConfidences(nodes, ActiveAmong(nodes, boxes, baseIds))
  {
    forall n
      ensures n != row.id ==> (Active(nodes + [row], boxes, n) <==> Active(nodes, boxes, n))
      ensures n != row.id ==> RowOf(nodes + [row], n) == RowOf(nodes, n)
    {
      WrittenActive(nodes, boxes, row, n);
    }
  }

  /** A rule is assembled exactly when some group writes it, with that group's strength. */
  lemma AssembledAt(nodes: seq<NodeRow>, baseIds: set<NodeId>, rows: seq<DerivedRow>, boxes: Option<set<BoxId>>,
                    d: Derivation)
    requires WritersAgree(nodes, boxes, rows)
    ensures var s := Assembled(nodes, baseIds, rows, boxes);
            && (d in s.graph.derivations <==> exists key :: WritesRule(nodes, boxes, rows, key, d))
            && forall key :: WritesRule(nodes, boxes, rows, key, d) ==>
                 HasKey(rows, key) && d in s.strength && s.strength[d] == StrengthOfGroup(rows, key)
  {
    hide WritersAgree, RulesUpTo, StrengthsUpTo, Keys, SortDerivations, Active, StrengthOfGroup, RuleOf, HasKey,
      ActiveAmong, BaseConfidences, Distinct;
    AssembledRules(nodes, boxes, rows, d);
    RulesOfAssembled(nodes, baseIds, rows, boxes);
  }

  /** The whole assembly after the write: if it takes effect one more rule, and no other change. */
  lemma AppendedRule(nodes: seq<NodeRow>, baseIds: set<NodeId>, rows: seq<DerivedRow>, boxes: Option<set<BoxId>>,
                     row: NodeRow, premises: seq<NodeId>, group: GroupId, strength: real)
    requires Proposable(nodes, baseIds, rows, row, group)
    ensures var all := rows + EdgeRows(row.id, premises, group, strength);
            var new_ := Derivation(row.id, set p | p in premises);
            var rules, strengths := RulesUpTo(nodes, boxes, rows, |Keys(rows)|),
              StrengthsUpTo(nodes, boxes, rows, |Keys(rows)|);
            && RulesUpTo(nodes + [row], boxes, all, |Keys(all)|)
               == (if TakesEffect(boxes, row, premises) then rules + [new_] else rules)
            && StrengthsUpTo(nodes + [row], boxes, all, |Keys(all)|)
               == (if TakesEffect(boxes, row, premises) then strengths[new_ := strength] else strengths)
  {
    var all, n := rows + EdgeRows(row.id, premises, group, strength), |Keys(rows)|;
    KeysOfEdges(rows, row.id, premises, group, strength);
    OldGroupsStand(nodes, baseIds, rows, boxes, row, premises, group, strength, n);
    if premises != [] {
      OneMoreGroup(nodes + [row], boxes, all, n);
      hide Keys, HasKey, BodyOf, ConclusionOf, StrengthOfGroup, Active, RulesUpTo, StrengthsUpTo, EdgeRows;
      WrittenGroup(rows, row.id, premises, group, strength);
      WrittenActive(nodes, boxes, row, row.id);
    }
  }

  /** The rows come back as they were written, or in any order if the order of the old ones does not
      show. */
  ghost predicate ReadsBack(nodes: seq<NodeRow>, boxes: Option<set<BoxId>>, rows: seq<DerivedRow>,
                            edges: seq<DerivedRow>, rows': seq<DerivedRow>)
  {
    || rows' == rows + edges
    || (SameRows(rows + edges, rows') && ActiveConclusionsAgree(nodes, boxes, rows) && WritersAgree(nodes, boxes, rows))
  }

  lemma EdgesAgree(nodes: seq<NodeRow>, baseIds: set<NodeId>, rows: seq<DerivedRow>, boxes: Option<set<BoxId>>,
                   row: NodeRow, premises: seq<NodeId>, group: GroupId, strength: real)
    requires Proposable(nodes, baseIds, rows, row, group)
    requires ActiveConclusionsAgree(nodes, boxes, rows) && WritersAgree(nodes, boxes, rows)
    ensures var all := rows + EdgeRows(row.id, premises, group, strength);
            ActiveConclusionsAgree(nodes + [row], boxes, all) && WritersAgree(nodes + [row], boxes, all)
  {
    var edges := EdgeRows(row.id, premises, group, strength);
    var all := rows + edges;
    assert forall r :: r in edges ==> KeyOf(r) == Grouped(group) && r.conclusion == row.id;
    assert forall r :: r in rows ==> KeyOf(r) != Grouped(group) && r.conclusion != row.id by {
      HasKeyOfRow(rows, Grouped(group));
    }
    hide HasKey, RuleOf, StrengthOfGroup, EdgeRows, KeyOf, Active, WritersAgree, ActiveConclusionsAgree;
    assert ActiveConclusionsAgree(nodes + [row], boxes, all) by {
      EdgesAgreeOnConclusions(nodes, boxes, rows, row, group, edges);
    }
    forall k, k', d | WritesRule(nodes + [row], boxes, all, k, d) && WritesRule(nodes + [row], boxes, all, k', d)
      ensures StrengthOfGroup(all, k) == StrengthOfGroup(all, k')
    {
      AppendedWriter(nodes, rows, boxes, row, premises, group, strength, k, d);
      AppendedWriter(nodes, rows, boxes, row, premises, group, strength, k', d);
      AgreeingPair(nodes, boxes, rows, k, k', d);
    }
    AllPairsAgree(nodes + [row], boxes, all);
  }

  lemma AgreeingPair(nodes: seq<NodeRow>, boxes: Option<set<BoxId>>, rows: seq<DerivedRow>, k: GroupKey, k': GroupKey,
                     d: Derivation)
    requires WritersAgree(nodes, boxes, rows)
    ensures WritesRule(nodes, boxes, rows, k, d) && WritesRule(nodes, boxes, rows, k', d) ==>
              StrengthOfGroup(rows, k) == StrengthOfGroup(rows, k')
  {
    hide HasKey, RuleOf, StrengthOfGroup, Active;
  }

  lemma AllPairsAgree(nodes: seq<NodeRow>, boxes: Option<set<BoxId>>, rows: seq<DerivedRow>)
    requires forall k, k', d :: WritesRule(nodes, boxes, rows, k, d) && WritesRule(nodes, boxes, rows, k', d)
               ==> StrengthOfGroup(rows, k) == StrengthOfGroup(rows, k')
    ensures WritersAgree(nodes, boxes, rows)
  {
    hide HasKey, RuleOf, StrengthOfGroup, Active;
  }

  lemma EdgesAgreeOnConclusions(nodes: seq<NodeRow>, boxes: Option<set<BoxId>>, rows: seq<DerivedRow>, row: NodeRow,
                                group: GroupId, edges: seq<DerivedRow>)
    requires ActiveConclusionsAgree(nodes, boxes, rows)
    requires forall r :: r in edges ==> KeyOf(r) == Grouped(group) && r.conclusion == row.id
    requires forall r :: r in rows ==> KeyOf(r) != Grouped(group) && r.conclusion != row.id
    ensures ActiveConclusionsAgree(nodes + [row], boxes, rows + edges)
  {
    hide Active, KeyOf;
    forall r, r' | r in rows + edges && r' in rows + edges && KeyOf(r) == KeyOf(r')
                   && Active(nodes + [row], boxes, r.conclusion)
      ensures r'.conclusion == r.conclusion
    {
      WrittenActive(nodes, boxes, row, r.conclusion);
    }
  }

  /** A writer of a rule after the write is a writer before it, or the new group. */
  lemma AppendedWriter(nodes: seq<NodeRow>, rows: seq<DerivedRow>, boxes: Option<set<BoxId>>, row: NodeRow,
                       premises: seq<NodeId>, group: GroupId, strength: real, key: GroupKey, d: Derivation)
    requires !HasKey(rows, Grouped(group)) && forall r :: r in rows ==> r.conclusion != row.id
    requires WritesRule(nodes + [row], boxes, rows + EdgeRows(row.id, premises, group, strength), key, d)
    ensures var all := rows + EdgeRows(row.id, premises, group, strength);
            if key == Grouped(group) then d.conclusion == row.id
            else d.conclusion != row.id && WritesRule(nodes, boxes, rows, key, d)
                 && StrengthOfGroup(all, key) == StrengthOfGroup(rows, key)
  {
    hide HasKey, BodyOf, ConclusionOf, StrengthOfGroup, Active;
    WrittenActive(nodes, boxes, row, d.conclusion);
    if key == Grouped(group) {
      if premises == [] {
        assert rows + EdgeRows(row.id, premises, group, strength) == rows;
      } else {
        WrittenGroup(rows, row.id, premises, group, strength);
      }
    } else {
      OtherGroup(rows, row.id, premises, group, strength, key);
      OldConclusion(rows, key, row.id);
    }
  }

  /** Reassembling the written rows gives the graph the conclusion was valued on if the write takes
      effect, and otherwise the graph as it was. */
  lemma WrittenAsValued(nodes: seq<NodeRow>, baseIds: set<NodeId>, rows: seq<DerivedRow>, boxes: Option<set<BoxId>>,
                        row: NodeRow, premises: seq<NodeId>, group: GroupId, strength: real, rows': seq<DerivedRow>)
    requires Proposable(nodes, baseIds, rows, row, group)
    requires ReadsBack(nodes, boxes, rows, EdgeRows(row.id, premises, group, strength), rows')
    ensures var s, t := Assembled(nodes, baseIds, rows, boxes), Assembled(nodes + [row], baseIds, rows', boxes);
            SameContent(if TakesEffect(boxes, row, premises)
                        then Augmented(s, Derivation(row.id, set p | p in premises), strength) else s, t)
  {
    var all := rows + EdgeRows(row.id, premises, group, strength);
    hide Assembled, HasKey, RuleOf, StrengthOfGroup, EdgeRows, WritersAgree, ActiveConclusionsAgree, SameRows, Active;
    if rows' != all {
      EdgesAgree(nodes, baseIds, rows, boxes, row, premises, group, strength);
      AssemblyIgnoresRowOrder(nodes + [row], baseIds, all, rows', boxes);
    }
    AppendedContent(nodes, baseIds, rows, boxes, row, premises, group, strength);
  }

  lemma AppendedContent(nodes: seq<NodeRow>, baseIds: set<NodeId>, rows: seq<DerivedRow>, boxes: Option<set<BoxId>>,
                        row: NodeRow, premises: seq<NodeId>, group: GroupId, strength: real)
    requires Proposable(nodes, baseIds, rows, row, group)
    ensures var all := rows + EdgeRows(row.id, premises, group, strength);
            var s, t := Assembled(nodes, baseIds, rows, boxes), Assembled(nodes + [row], baseIds, all, boxes);
            SameContent(if TakesEffect(boxes, row, premises)
                        then Augmented(s, Derivation(row.id, set p | p in premises), strength) else s, t)
  {
    var all := rows + EdgeRows(row.id, premises, group, strength);
    AppendedRule(nodes, baseIds, rows, boxes, row, premises, group, strength);
    FreshIsAbsent(nodes, baseIds, rows, boxes, row.id);
    RulesOfAssembled(nodes, baseIds, rows, boxes);
    RulesOfAssembled(nodes + [row], baseIds, all, boxes);
    StrengthMapFacts(nodes, boxes, rows, |Keys(rows)|);
    WrittenFacts(nodes, baseIds, boxes, row);
    hide HasKey, RulesUpTo, StrengthsUpTo, Keys, SortDerivations, EdgeRows, ActiveAmong, BaseConfidences, RowOf,
      SameContent, Augmented, TakesEffect, FreshNode, Unmentioned;
    var s, t := Assembled(nodes, baseIds, rows, boxes), Assembled(nodes + [row], baseIds, all, boxes);
    OneRuleMore(s, t, Derivation(row.id, set p | p in premises), strength, TakesEffect(boxes, row, premises));
  }

  lemma OneRuleMore(s: ActiveSubgraph, t: ActiveSubgraph, d: Derivation, strength: real, more: bool)
    requires Absent(s, d.conclusion)
    requires s.graph.baseFacts == t.graph.baseFacts && s.baseConfidence == t.baseConfidence
    requires forall e :: e in t.graph.derivations <==> (more && e == d) || e in s.graph.derivations
    requires forall e :: e in s.graph.derivations ==> e in s.strength
    requires t.strength == if more then s.strength[d := strength] else s.strength
    ensures SameContent(if more then Augmented(s, d, strength) else s, t)
  {
  }

  lemma FactsOfAssembled(nodes: seq<NodeRow>, baseIds: set<NodeId>, rows: seq<DerivedRow>, boxes: Option<set<BoxId>>)
    ensures Assembled(nodes, baseIds, rows, boxes).graph.baseFacts == ActiveAmong(nodes, boxes, baseIds)
    ensures Assembled(nodes, baseIds, rows, boxes).baseConfidence
         == BaseConfidences(nodes, ActiveAmong(nodes, boxes, baseIds))
  {
  }

  // ---------------------------------------------------------------- everybody else

  /** No fact, no rule and no body of the subgraph mentions `n`. */
  ghost predicate Absent(s: ActiveSubgraph, n: NodeId) {
    && n !in s.graph.baseFacts
    && forall d :: d in s.graph.derivations ==> d.conclusion != n && n !in d.body
  }

  lemma FreshIsAbsent(nodes: seq<NodeRow>, baseIds: set<NodeId>, rows: seq<DerivedRow>, boxes: Option<set<BoxId>>,
                      n: NodeId)
    requires Unmentioned(baseIds, rows, n)
    ensures Absent(Assembled(nodes, baseIds, rows, boxes), n)
  {
    hide Assembled, HasKey, RuleOf, Active, BodyOf;
    var s := Assembled(nodes, baseIds, rows, boxes);
    FactsOfAssembled(nodes, baseIds, rows, boxes);
    forall d | d in s.graph.derivations
      ensures d.conclusion != n && n !in d.body
    {
      RuleIsWritten(nodes, baseIds, rows, boxes, d);
      var key :| WritesRule(nodes, boxes, rows, key, d);
      OldConclusion(rows, key, n);
      OldBody(rows, key, n);
    }
  }

  /** A new conclusion supports nothing but itself. */
  lemma OthersKeepSupport(s: ActiveSubgraph, d: Derivation, strength: real)
    requires Absent(s, d.conclusion)
    ensures d.conclusion !in SupportOf(s)
    ensures SupportOf(s) <= SupportOf(Augmented(s, d, strength)) <= SupportOf(s) + {d.conclusion}
  {
    var base, rules := s.graph.baseFacts, s.graph.Rules();
    var t := Augmented(s, d, strength);
    assert t.graph.Rules() == rules + {d};
    SupportIsLeast(base, rules);
    SupportIsLeast(base, t.graph.Rules());
    SupportMonotone(base, rules, base, t.graph.Rules());
    var grown := Support(base, rules) + {d.conclusion};
    forall r | r in t.graph.Rules() && r.body <= grown
      ensures r.conclusion in grown
    {
      if r != d {
        assert r.body <= Support(base, rules);
      }
    }
    assert Closed(base, t.graph.Rules(), grown);
  }

  lemma OthersKeepGroundings(s: ActiveSubgraph, d: Derivation, strength: real, n: NodeId)
    requires Absent(s, d.conclusion) && n != d.conclusion
    ensures var t := Augmented(s, d, strength);
            Groundings(t.graph.baseFacts, t.graph.Rules(), SupportOf(t), n) ==
            Groundings(s.graph.baseFacts, s.graph.Rules(), SupportOf(s), n)
  {
    OthersKeepSupport(s, d, strength);
    hide SupportOf;
    var t := Augmented(s, d, strength);
    assert (set r | r in t.graph.Rules() && r.conclusion == n && r.body <= SupportOf(t))
        == (set r | r in s.graph.Rules() && r.conclusion == n && r.body <= SupportOf(s));
  }

  /** What `w` has, `v` weighs alike. */
  ghost predicate SameInputs(v: Input, w: Input) {
    && (forall d :: d in w.graph.derivations ==> v.StrengthOf(d) == w.StrengthOf(d))
    && (forall n :: n in w.graph.baseFacts ==> v.BaseOf(n) == w.BaseOf(n))
  }

  /** The values of `w`, with the strongest possible one for the new node. */
  ghost function Padded(w: map<NodeId, real>, support: set<NodeId>): map<NodeId, real> {
    map n | n in support :: if n in w then w[n] else 1.0
  }

  lemma PaddedNodeValue(v: Input, w: Input, conf: map<NodeId, real>, cid: NodeId, u: NodeId)
    requires v.InRange() && w.InRange() && Extends(v, w) && w.Assigns(conf)
    requires v.supported <= w.supported + {cid} && cid !in w.supported && u in w.supported
    requires v.graph.baseFacts == w.graph.baseFacts && SameInputs(v, w)
    requires forall d :: d in v.graph.derivations && d.conclusion != cid ==> d in w.graph.derivations && cid !in d.body
    ensures v.Assigns(Padded(conf, v.supported))
    ensures v.NodeValue(Padded(conf, v.supported), u) <= w.NodeValue(conf, u)
  {
    hide v.NodeValue, v.Contribution;
    var y := Padded(conf, v.supported);
    NodeValueIsBest(v, y, u);
    NodeValueIsBest(w, conf, u);
    assert v.Start(u) == w.Start(u);
    if v.NodeValue(y, u) != v.Start(u) {
      var d :| v.Grounds(d, u) && v.Contribution(y, d) == v.NodeValue(y, u);
      assert w.Grounds(d, u);
      SameContribution(v, w, y, conf, d);
    }
  }

  lemma SameContribution(v: Input, w: Input, y: map<NodeId, real>, conf: map<NodeId, real>, d: Derivation)
    requires v.InRange() && v.sr == w.sr && v.StrengthOf(d) == w.StrengthOf(d)
    requires v.Assigns(y) && w.Assigns(conf) && v.Grounded(d) && w.Grounded(d)
    requires forall a :: a in d.body ==> y[a] == conf[a]
    ensures v.Contribution(y, d) == w.Contribution(conf, d)
  {
    BodyCongruent(v.sr, y, conf, d.body);
  }

  lemma OthersCapped(v: Input, w: Input, conf: map<NodeId, real>, conf': map<NodeId, real>, cid: NodeId)
    requires v.InRange() && w.InRange() && Extends(v, w)
    requires LeastFixpoint(v, conf') && LeastFixpoint(w, conf)
    requires v.supported <= w.supported + {cid} && cid !in w.supported
    requires v.graph.baseFacts == w.graph.baseFacts && SameInputs(v, w)
    requires forall d :: d in v.graph.derivations && d.conclusion != cid ==> d in w.graph.derivations && cid !in d.body
    ensures forall n :: n in w.supported ==> conf'[n] <= conf[n]
  {
    hide v.NodeValue, Iterate, Extends, v.Grounded, LeastFixpoint, SameInputs;
    ExtendsSupport(v, w);
    LeastIsFixpoint(w, conf);
    var y := Padded(conf, v.supported);
    LeastFixpointIsIterate(v, conf');
    assert v.Assigns(y);
    forall u | u in v.supported
      ensures v.NodeValue(y, u) <= y[u]
    {
      if u == cid {
        NodeValueIsBest(v, y, u);
      } else {
        PaddedNodeValue(v, w, conf, cid, u);
      }
    }
    forall n | n in w.supported
      ensures conf'[n] <= conf[n]
    {
      IteratesBelow(v, y, |v.supported|, n);
    }
  }

  lemma LeastIsFixpoint(v: Input, conf: map<NodeId, real>)
    requires LeastFixpoint(v, conf)
    ensures v.Assigns(conf) && forall n :: n in v.supported ==> conf[n] == v.NodeValue(conf, n)
  {
  }

  lemma ExtendsSupport(v: Input, w: Input)
    requires Extends(v, w)
    ensures w.supported <= v.supported
  {
  }

  lemma AugmentedExtends(s: ActiveSubgraph, d: Derivation, strength: real, sr: Semiring)
    requires Absent(s, d.conclusion)
    ensures var t := Augmented(s, d, strength);
            Extends(InputOf(t, SupportOf(t), sr), InputOf(s, SupportOf(s), sr))
            && SameInputs(InputOf(t, SupportOf(t), sr), InputOf(s, SupportOf(s), sr))
  {
    OthersKeepSupport(s, d, strength);
    hide SupportOf;
  }

  lemma OthersKeepLayerB(s: ActiveSubgraph, d: Derivation, strength: real, sr: Semiring)
    requires InputOf(s, {}, sr).InRange() && Unit(strength) && Absent(s, d.conclusion)
    ensures var t := Augmented(s, d, strength);
            InputOf(t, {}, sr).InRange() && LayerB(s, sr).Keys == SupportOf(s) && LayerB(t, sr).Keys == SupportOf(t)
            && SupportOf(s) <= SupportOf(t)
            && forall n :: n in SupportOf(s) ==> LayerB(t, sr)[n] == LayerB(s, sr)[n]
  {
    hide SupportOf, LayerB, LeastFixpoint, Extends, SameInputs;
    var t := Augmented(s, d, strength);
    AugmentedInRange(s, d, strength, sr);
    AugmentedExtends(s, d, strength, sr);
    OthersKeepSupport(s, d, strength);
    LayerBGrows(t, s, sr);
    OthersCapped(InputOf(t, SupportOf(t), sr), InputOf(s, SupportOf(s), sr), LayerB(s, sr), LayerB(t, sr), d.conclusion);
  }

  lemma AnnotatesAlike(s: ActiveSubgraph, t: ActiveSubgraph, sr: Semiring, n: NodeId, count: int, confidence: real)
    requires InputOf(s, {}, sr).InRange() && InputOf(t, {}, sr).InRange()
    requires n in SupportOf(s) <==> n in SupportOf(t)
    requires Groundings(s.graph.baseFacts, s.graph.Rules(), SupportOf(s), n)
          == Groundings(t.graph.baseFacts, t.graph.Rules(), SupportOf(t), n)
    requires LayerB(s, sr).Keys == SupportOf(s) && LayerB(t, sr).Keys == SupportOf(t)
    requires n in SupportOf(s) ==> LayerB(s, sr)[n] == LayerB(t, sr)[n]
    ensures Annotates(t, sr, n, count, confidence) <==> Annotates(s, sr, n, count, confidence)
  {
    hide SupportOf, Groundings, LayerB, s.graph.Rules;
  }

  /** Valuing a new conclusion changes no other node's annotations. */
  lemma OthersUnchanged(s: ActiveSubgraph, d: Derivation, strength: real, sr: Semiring, n: NodeId, count: int,
                        confidence: real)
    requires InputOf(s, {}, sr).InRange() && Unit(strength) && Absent(s, d.conclusion) && n != d.conclusion
    ensures InputOf(Augmented(s, d, strength), {}, sr).InRange()
    ensures Annotates(Augmented(s, d, strength), sr, n, count, confidence) <==> Annotates(s, sr, n, count, confidence)
  {
    hide *;
    var t := Augmented(s, d, strength);
    OthersKeepSupport(s, d, strength);
    OthersKeepGroundings(s, d, strength, n);
    OthersKeepLayerB(s, d, strength, sr);
    AnnotatesAlike(s, t, sr, n, count, confidence);
  }

  // ---------------------------------------------------------------- the whole operator

  /** What the reassembled graph says of a node other than the new conclusion is what the graph
      said before the write. */
  lemma OthersUnchangedByWrite(nodes: seq<NodeRow>, baseIds: set<NodeId>, rows: seq<DerivedRow>,
                               boxes: Option<set<BoxId>>, row: NodeRow, premises: seq<NodeId>, group: GroupId,
                               strength: real, rows': seq<DerivedRow>, sr: Semiring, n: NodeId, count: int,
                               confidence: real)
    requires Proposable(nodes, baseIds, rows, row, group)
    requires ReadsBack(nodes, boxes, rows, EdgeRows(row.id, premises, group, strength), rows')
    requires var s := Assembled(nodes, baseIds, rows, boxes);
             InputOf(s, {}, sr).InRange() && Unit(strength) && n != row.id
    ensures var s, t := Assembled(nodes, baseIds, rows, boxes), Assembled(nodes + [row], baseIds, rows', boxes);
            InputOf(t, {}, sr).InRange()
            && (Annotates(t, sr, n, count, confidence) <==> Annotates(s, sr, n, count, confidence))
  {
    hide Assembled, Annotates, ReadsBack, EdgeRows, HasKey, Absent, SameContent, Augmented, RowOf;
    var s, t := Assembled(nodes, baseIds, rows, boxes), Assembled(nodes + [row], baseIds, rows', boxes);
    var d := Derivation(row.id, set p | p in premises);
    FreshIsAbsent(nodes, baseIds, rows, boxes, row.id);
    WrittenAsValued(nodes, baseIds, rows, boxes, row, premises, group, strength, rows');
    OthersUnchanged(s, d, strength, sr, n, count, confidence);
    StrengthsAreRules(nodes + [row], baseIds, rows', boxes);
    var u := if TakesEffect(boxes, row, premises) then Augmented(s, d, strength) else s;
    SameContentInRange(u, t, sr);
    SameAnnotations(u, t, sr, n, count, confidence);
  }

  lemma StrengthsAreRules(nodes: seq<NodeRow>, baseIds: set<NodeId>, rows: seq<DerivedRow>, boxes: Option<set<BoxId>>)
    ensures var s := Assembled(nodes, baseIds, rows, boxes);
            forall d :: d in s.strength ==> d in s.graph.derivations
  {
    StrengthMapFacts(nodes, boxes, rows, |Keys(rows)|);
    RulesOfAssembled(nodes, baseIds, rows, boxes);
  }

  lemma SameContentInRange(s: ActiveSubgraph, t: ActiveSubgraph, sr: Semiring)
    requires SameContent(s, t) && InputOf(s, {}, sr).InRange()
    requires forall d :: d in t.strength ==> d in t.graph.derivations
    ensures InputOf(t, {}, sr).InRange()
  {
  }

  /** A new conclusion is supported exactly when its premises all are, and then it is grounded once. */
  lemma NewConclusionGrounds(s: ActiveSubgraph, d: Derivation, strength: real)
    requires Absent(s, d.conclusion)
    ensures var t := Augmented(s, d, strength);
            && (d.conclusion in SupportOf(t) <==> d.body <= SupportOf(s))
            && (d.conclusion in SupportOf(t) ==>
                  Groundings(t.graph.baseFacts, t.graph.Rules(), SupportOf(t), d.conclusion) == 1)
  {
    var t := Augmented(s, d, strength);
    var base, rules := s.graph.baseFacts, s.graph.Rules();
    assert t.graph.Rules() == rules + {d};
    OthersKeepSupport(s, d, strength);
    SupportIsLeast(base, rules);
    SupportIsLeast(base, t.graph.Rules());
    if d.body <= SupportOf(s) {
      assert (set r | r in t.graph.Rules() && r.conclusion == d.conclusion && r.body <= SupportOf(t)) == {d};
    } else {
      assert Closed(base, t.graph.Rules(), SupportOf(s));
    }
  }

  lemma NewConclusionCounts(s: ActiveSubgraph, d: Derivation, strength: real, sr: Semiring, count: int, confidence: real)
    requires Absent(s, d.conclusion) && InputOf(Augmented(s, d, strength), {}, sr).InRange()
    requires Annotates(Augmented(s, d, strength), sr, d.conclusion, count, confidence)
    ensures if d.body <= SupportOf(s) then count == 1 else count == 0 && confidence == 0.0
  {
    hide SupportOf, LayerB, Groundings, Absent, Augmented, s.graph.Rules;
    NewConclusionGrounds(s, d, strength);
  }

  lemma AbsentIsZero(s: ActiveSubgraph, sr: Semiring, n: NodeId, count: int, confidence: real)
    requires InputOf(s, {}, sr).InRange() && Absent(s, n)
    ensures Annotates(s, sr, n, count, confidence) <==> count == 0 && confidence == 0.0
  {
    assert n !in Universe(s.graph.baseFacts, s.graph.Rules());
    hide Groundings, LayerB;
  }

  /** A condition the writer can test on what it loaded. */
  ghost predicate StoresTheTruth(s: ActiveSubgraph, boxes: Option<set<BoxId>>, box: Option<BoxId>,
                                 premises: seq<NodeId>)
  {
    premises != [] && (BoxIsActive(boxes, box) || exists p :: p in premises && p !in SupportOf(s))
  }

  lemma PremisesAre(premises: seq<NodeId>, supported: set<NodeId>)
    ensures (set p | p in premises) <= supported <==> forall p :: p in premises ==> p in supported
  {
  }

  /** The stored annotations of the new conclusion are those of the reassembled graph exactly
      when the proposal has a premise and either its box is active or some premise is unsupported. */
  lemma WriteAgreesWithValue(nodes: seq<NodeRow>, baseIds: set<NodeId>, rows: seq<DerivedRow>,
                             boxes: Option<set<BoxId>>, row: NodeRow, premises: seq<NodeId>, group: GroupId,
                             strength: real, rows': seq<DerivedRow>, sr: Semiring, count: int, confidence: real)
    requires Proposable(nodes, baseIds, rows, row, group)
    requires ReadsBack(nodes, boxes, rows, EdgeRows(row.id, premises, group, strength), rows')
    requires InputOf(Assembled(nodes, baseIds, rows, boxes), {}, sr).InRange() && Unit(strength)
    requires InputOf(Assembled(nodes + [row], baseIds, rows', boxes), {}, sr).InRange()
    requires var t := Augmented(Assembled(nodes, baseIds, rows, boxes),
                                Derivation(row.id, set p | p in premises), strength);
             InputOf(t, {}, sr).InRange() && Annotates(t, sr, row.id, count, confidence)
    ensures Annotates(Assembled(nodes + [row], baseIds, rows', boxes), sr, row.id, count, confidence)
       <==> StoresTheTruth(Assembled(nodes, baseIds, rows, boxes), boxes, row.box, premises)
  {
    hide Assembled, Annotates, ReadsBack, EdgeRows, HasKey, Absent, SameContent, Augmented, RowOf;
    var s, t := Assembled(nodes, baseIds, rows, boxes), Assembled(nodes + [row], baseIds, rows', boxes);
    var d := Derivation(row.id, set p | p in premises);
    WrittenAsValued(nodes, baseIds, rows, boxes, row, premises, group, strength, rows');
    if TakesEffect(boxes, row, premises) {
      SameAnnotations(Augmented(s, d, strength), t, sr, row.id, count, confidence);
    } else {
      SameAnnotations(s, t, sr, row.id, count, confidence);
      FreshIsAbsent(nodes, baseIds, rows, boxes, row.id);
      AbsentIsZero(s, sr, row.id, count, confidence);
      NewConclusionCounts(s, d, strength, sr, count, confidence);
      PremisesAre(premises, SupportOf(s));
    }
  }
}
