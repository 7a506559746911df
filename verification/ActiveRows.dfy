/**
 What the rows say, row by row, about the subgraph src/iknos/core/derivation_adapter.py assembles from
 them: which nodes are base facts, which rules stand and how strong they are, and what an inactive
 box keeps out.

 `ClosedBoxIsSilent` is the box filter: a node whose box is not among the active ones is no base
 fact, concludes nothing, is neither supported nor scored, and no rule that asks for it fires.
 */
module ActiveRows {
  import opened TruthMaintenance
  import opened Confidence
  import opened DerivationAdapter
  import opened RowOrder
  import opened Derive

  /** The last row of a node id is the one that counts. */
  ghost predicate Stands(nodes: seq<NodeRow>, i: nat, n: NodeId) {
    && i < |nodes| && nodes[i].id == n
    && forall j :: i < j < |nodes| ==> nodes[j].id != n
  }

  lemma {:induction false} RowStands(nodes: seq<NodeRow>, n: NodeId)
    ensures RowOf(nodes, n).None? <==> forall i :: 0 <= i < |nodes| ==> nodes[i].id != n
    ensures forall i :: 0 <= i < |nodes| && Stands(nodes, i, n) ==> RowOf(nodes, n) == Some(nodes[i])
    ensures RowOf(nodes, n).Some? ==> exists i :: 0 <= i < |nodes| && Stands(nodes, i, n)
  {
    if nodes != [] {
      var front, k := nodes[..|nodes| - 1], |nodes| - 1;
      RowStands(front, n);
      if nodes[k].id == n {
        assert Stands(nodes, k, n);
      } else {
        forall i | 0 <= i < k
          ensures Stands(nodes, i, n) <==> Stands(front, i, n)
        {
          assert forall j :: i < j < k ==> front[j] == nodes[j];
        }
        assert forall i :: 0 <= i < k ==> front[i] == nodes[i];
      }
    }
  }

  // ---------------------------------------------------------------- facts

  /** A base fact is a listed id with a row whose box, unless all count, is an active one; it brings the
      confidence of that row. */
  lemma FactsExactly(nodes: seq<NodeRow>, baseIds: set<NodeId>, rows: seq<DerivedRow>, boxes: Option<set<BoxId>>,
                     n: NodeId)
    ensures n in Assembled(nodes, baseIds, rows, boxes).graph.baseFacts
       <==> n in baseIds && exists i :: 0 <= i < |nodes| && Stands(nodes, i, n)
                              && (boxes.None? || (nodes[i].box.Some? && nodes[i].box.value in boxes.value))
    ensures forall i :: 0 <= i < |nodes| && Stands(nodes, i, n) && n in Assembled(nodes, baseIds, rows, boxes).graph.baseFacts ==>
              var conf := Assembled(nodes, baseIds, rows, boxes).baseConfidence;
              n in conf && conf[n] == nodes[i].confidence
  {
    FactsOfAssembled(nodes, baseIds, rows, boxes);
    RowStands(nodes, n);
    hide Assembled, RowOf, Stands;
  }

  // ---------------------------------------------------------------- rules

  /** Two rows belong to one rule: they share the group id, or have none and share the conclusion. */
  ghost predicate Together(r: DerivedRow, t: DerivedRow) {
    r.derivation == t.derivation && (r.derivation.None? ==> r.conclusion == t.conclusion)
  }

  /** `d` is the rule that `row` belongs to, by its edges alone. */
  ghost predicate RuleAround(rows: seq<DerivedRow>, row: DerivedRow, d: Derivation) {
    && d.conclusion == row.conclusion
    && forall a :: a in d.body <==> exists r :: r in rows && Together(r, row) && r.antecedent == a
  }

  lemma SameKey(r: DerivedRow, t: DerivedRow)
    ensures KeyOf(r) == KeyOf(t) <==> Together(r, t)
  {
  }

  lemma RuleAroundIs(rows: seq<DerivedRow>, row: DerivedRow, d: Derivation)
    requires OneConclusionPerGroup(rows) && row in rows
    ensures HasKey(rows, KeyOf(row)) && (RuleAround(rows, row, d) <==> RuleOf(rows, KeyOf(row)) == d)
  {
    var key := KeyOf(row);
    HasKeyOfRow(rows, key);
    ConclusionOfRow(rows, key);
    SameRowsSameGroup(rows, rows, key);
    hide OneConclusionPerGroup, HasKey, ConclusionOf, BodyOf, KeyOf;
    forall a
      ensures a in BodyOf(rows, key) <==> exists r :: r in rows && Together(r, row) && r.antecedent == a
    {
      BodyOfRows(rows, key, a);
      if r :| r in rows && Together(r, row) && r.antecedent == a {
        SameKey(r, row);
      }
      if r :| r in rows && KeyOf(r) == key && r.antecedent == a {
        SameKey(r, row);
      }
    }
  }

  /** The rules are those around the rows with an active conclusion, inactive antecedents included. */
  lemma RulesExactly(nodes: seq<NodeRow>, baseIds: set<NodeId>, rows: seq<DerivedRow>, boxes: Option<set<BoxId>>,
                     d: Derivation)
    requires OneConclusionPerGroup(rows)
    ensures d in Assembled(nodes, baseIds, rows, boxes).graph.Rules()
       <==> exists row, i :: row in rows && RuleAround(rows, row, d) && 0 <= i < |nodes| && Stands(nodes, i, d.conclusion)
                          && (boxes.None? || (nodes[i].box.Some? && nodes[i].box.value in boxes.value))
  {
    RuleIsWritten(nodes, baseIds, rows, boxes, d);
    RowStands(nodes, d.conclusion);
    hide Assembled, RowOf, Stands, HasKey, BodyOf, ConclusionOf, OneConclusionPerGroup, RuleAround, KeyOf;
    if key :| WritesRule(nodes, boxes, rows, key, d) {
      HasKeyOfRow(rows, key);
      var row :| row in rows && KeyOf(row) == key;
      RuleAroundIs(rows, row, d);
    }
    if row, i :| row in rows && RuleAround(rows, row, d) && 0 <= i < |nodes| && Stands(nodes, i, d.conclusion)
                 && (boxes.None? || (nodes[i].box.Some? && nodes[i].box.value in boxes.value)) {
      RuleAroundIs(rows, row, d);
      assert WritesRule(nodes, boxes, rows, KeyOf(row), d);
    }
  }

  /** Where one group writes the rule, its strength is the least of that group's edges. */
  lemma StrengthIsTheWeakestEdge(nodes: seq<NodeRow>, baseIds: set<NodeId>, rows: seq<DerivedRow>,
                                 boxes: Option<set<BoxId>>, row: DerivedRow, d: Derivation)
    requires OneConclusionPerGroup(rows) && WritersAgree(nodes, boxes, rows)
    requires row in rows && RuleAround(rows, row, d) && d in Assembled(nodes, baseIds, rows, boxes).graph.Rules()
    ensures var strength := Assembled(nodes, baseIds, rows, boxes).strength;
            && d in strength
            && (exists r :: r in rows && Together(r, row) && strength[d] == r.strength)
            && (forall r :: r in rows && Together(r, row) ==> strength[d] <= r.strength)
  {
    var key := KeyOf(row);
    RuleIsWritten(nodes, baseIds, rows, boxes, d);
    RuleAroundIs(rows, row, d);
    AssembledAt(nodes, baseIds, rows, boxes, d);
    StrengthsExist(rows, key);
    LowestIsOne(StrengthsOf(rows, key));
    hide Assembled, HasKey, BodyOf, ConclusionOf, OneConclusionPerGroup, WritersAgree, RuleAround, KeyOf, Active,
      StrengthsOf;
    assert WritesRule(nodes, boxes, rows, key, d);
    var x := StrengthOfGroup(rows, key);
    StrengthsOfRows(rows, key, x);
    var least :| least in rows && KeyOf(least) == key && least.strength == x;
    SameKey(least, row);
    forall r | r in rows && Together(r, row)
      ensures x <= r.strength
    {
      SameKey(r, row);
      StrengthsOfRows(rows, key, r.strength);
    }
  }

  // ---------------------------------------------------------------- the box filter

  /** No row of the node lies in one of these boxes. */
  ghost predicate Outside(nodes: seq<NodeRow>, boxes: set<BoxId>, n: NodeId) {
    forall i :: 0 <= i < |nodes| && nodes[i].id == n ==> nodes[i].box.None? || nodes[i].box.value !in boxes
  }

  /** A node outside the active boxes is no base fact, concludes no rule, is neither supported nor
      scored, and no rule with it in the body fires. */
  lemma ClosedBoxIsSilent(nodes: seq<NodeRow>, baseIds: set<NodeId>, rows: seq<DerivedRow>, boxes: set<BoxId>,
                          n: NodeId, sr: Semiring)
    requires Outside(nodes, boxes, n)
    requires InputOf(Assembled(nodes, baseIds, rows, Some(boxes)), {}, sr).InRange()
    ensures var s := Assembled(nodes, baseIds, rows, Some(boxes));
            && n !in s.graph.baseFacts && n !in SupportOf(s) && n !in LayerB(s, sr)
            && forall d :: d in s.graph.Rules() ==> d.conclusion != n && (n in d.body ==> !(d.body <= SupportOf(s)))
  {
    var s := Assembled(nodes, baseIds, rows, Some(boxes));
    FactsExactly(nodes, baseIds, rows, Some(boxes), n);
    forall d | d in s.graph.Rules()
      ensures d.conclusion != n
    {
      RuleIsWritten(nodes, baseIds, rows, Some(boxes), d);
      RowStands(nodes, d.conclusion);
    }
    hide Assembled, LayerB, RowOf;
    LayerBKeys(s, sr);
    Unconcluded(s, n);
  }

  lemma Unconcluded(s: ActiveSubgraph, n: NodeId)
    requires n !in s.graph.baseFacts && forall d :: d in s.graph.Rules() ==> d.conclusion != n
    ensures n !in SupportOf(s)
  {
    SupportIsLeast(s.graph.baseFacts, s.graph.Rules());
    assert Closed(s.graph.baseFacts, s.graph.Rules(), SupportOf(s) - {n});
  }

  /** Closing boxes unsupports a conclusion none of whose rules is left with all its antecedents. */
  lemma ClosingBoxesUnsupports(nodes: seq<NodeRow>, baseIds: set<NodeId>, rows: seq<DerivedRow>, boxes: set<BoxId>,
                               c: NodeId)
    requires c !in baseIds && OneConclusionPerGroup(rows)
    requires forall row :: row in rows && row.conclusion == c ==>
               exists r :: r in rows && Together(r, row) && Outside(nodes, boxes, r.antecedent)
    ensures c !in SupportOf(Assembled(nodes, baseIds, rows, Some(boxes)))
  {
    var s := Assembled(nodes, baseIds, rows, Some(boxes));
    FactsExactly(nodes, baseIds, rows, Some(boxes), c);
    forall d | d in s.graph.Rules() && d.conclusion == c
      ensures !(d.body <= SupportOf(s))
    {
      RulesExactly(nodes, baseIds, rows, Some(boxes), d);
      hide Assembled, OneConclusionPerGroup, SupportOf, Stands;
      var row, i :| row in rows && RuleAround(rows, row, d) && 0 <= i < |nodes| && Stands(nodes, i, d.conclusion);
      var r :| r in rows && Together(r, row) && Outside(nodes, boxes, r.antecedent);
      OutsideIsUnsupported(nodes, baseIds, rows, boxes, r.antecedent);
    }
    hide Assembled;
    NeverFires(s, c);
  }

  lemma OutsideIsUnsupported(nodes: seq<NodeRow>, baseIds: set<NodeId>, rows: seq<DerivedRow>, boxes: set<BoxId>,
                             n: NodeId)
    requires Outside(nodes, boxes, n)
    ensures n !in SupportOf(Assembled(nodes, baseIds, rows, Some(boxes)))
  {
    var s := Assembled(nodes, baseIds, rows, Some(boxes));
    FactsExactly(nodes, baseIds, rows, Some(boxes), n);
    forall d | d in s.graph.Rules()
      ensures d.conclusion != n
    {
      RuleIsWritten(nodes, baseIds, rows, Some(boxes), d);
      RowStands(nodes, d.conclusion);
    }
    hide Assembled, RowOf;
    Unconcluded(s, n);
  }

  lemma NeverFires(s: ActiveSubgraph, c: NodeId)
    requires c !in s.graph.baseFacts
    requires forall d :: d in s.graph.Rules() && d.conclusion == c ==> !(d.body <= SupportOf(s))
    ensures c !in SupportOf(s)
  {
    SupportIsLeast(s.graph.baseFacts, s.graph.Rules());
    assert Closed(s.graph.baseFacts, s.graph.Rules(), SupportOf(s) - {c});
  }
}
