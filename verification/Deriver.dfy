/**
 The deduce/induce operator of src/iknos/core/derive.py end to end: it loads the current rows,
 values its proposal on them (Derive.dfy), writes the conclusion and its edges, and the next load
 reads back what is current (CurrentRead.dfy).

 That load drops the edges into retracted premises, so the rule comes back shorter than it was
 valued. `LoadAgreesExactlyWhen` says when the stored annotations are those of the next load.
 */
module Deriver {
  import opened TruthMaintenance
  import opened SupportBooks
  import opened Confidence
  import opened DerivationAdapter
  import opened RowOrder
  import opened Derive
  import opened CurrentRead
  import opened ConclusionWorth

  /** What a load sees, with `gone` retracted. */
  ghost function Loaded(nodes: seq<NodeRow>, baseIds: set<NodeId>, rows: seq<DerivedRow>, boxes: Option<set<BoxId>>,
                        gone: set<NodeId>): ActiveSubgraph
  {
    Assembled(Keep(nodes, gone), baseIds, CurrentRows(rows, gone), boxes)
  }

  /** The premises a load still finds. */
  ghost function Standing(premises: seq<NodeId>, gone: set<NodeId>): (standing: seq<NodeId>)
    ensures forall p :: p in standing <==> p in premises && p !in gone
  {
    if premises == [] then []
    else
      var front, last := premises[..|premises| - 1], premises[|premises| - 1];
      assert premises == front + [last];
      Standing(front, gone) + if last in gone then [] else [last]
  }

  lemma {:induction false} NoneGone(premises: seq<NodeId>, gone: set<NodeId>)
    requires forall p :: p in premises ==> p !in gone
    ensures Standing(premises, gone) == premises
  {
    if premises != [] {
      var front, last := premises[..|premises| - 1], premises[|premises| - 1];
      assert premises == front + [last] && last !in gone;
      assert forall p :: p in front ==> p in premises;
      NoneGone(front, gone);
    }
  }

  // ---------------------------------------------------------------- the rows a load finds

  lemma {:induction false} CurrentRowsOfSum(rows: seq<DerivedRow>, more: seq<DerivedRow>, gone: set<NodeId>)
    ensures CurrentRows(rows + more, gone) == CurrentRows(rows, gone) + CurrentRows(more, gone)
  {
    if more == [] {
      assert rows + more == rows;
    } else {
      var front, last := more[..|more| - 1], more[|more| - 1];
      assert (rows + more)[..|rows + more| - 1] == rows + front;
      CurrentRowsOfSum(rows, front, gone);
    }
  }

  lemma {:induction false} EdgesAsRead(cid: NodeId, premises: seq<NodeId>, group: GroupId, strength: real,
                                       gone: set<NodeId>)
    requires cid !in gone
    ensures CurrentRows(EdgeRows(cid, premises, group, strength), gone)
         == EdgeRows(cid, Standing(premises, gone), group, strength)
  {
    if premises != [] {
      var front, last := premises[..|premises| - 1], premises[|premises| - 1];
      EdgesAsRead(cid, front, group, strength, gone);
      EdgesOfOneMore(cid, premises, group, strength);
      var before, row := EdgeRows(cid, front, group, strength), DerivedRow(cid, last, Some(group), strength);
      assert (before + [row])[..|before|] == before;
      hide EdgeRows;
      if last !in gone {
        EdgesOfOneMore(cid, Standing(front, gone) + [last], group, strength);
        assert (Standing(front, gone) + [last])[..|Standing(front, gone)|] == Standing(front, gone);
      }
    }
  }

  lemma KeptRow(nodes: seq<NodeRow>, row: NodeRow, gone: set<NodeId>)
    requires row.id !in gone
    ensures Keep(nodes + [row], gone) == Keep(nodes, gone) + [row]
  {
    assert (nodes + [row])[..|nodes|] == nodes;
  }

  lemma StillProposable(nodes: seq<NodeRow>, baseIds: set<NodeId>, rows: seq<DerivedRow>, row: NodeRow, group: GroupId,
                        gone: set<NodeId>)
    requires Proposable(nodes, baseIds, rows, row, group)
    ensures Proposable(Keep(nodes, gone), baseIds, CurrentRows(rows, gone), row, group)
  {
    RowOfKept(nodes, gone, row.id);
    HasKeyOfRow(rows, Grouped(group));
    HasKeyOfRow(CurrentRows(rows, gone), Grouped(group));
    hide HasKey, Keep, RowOf;
  }

  /** The next load after a write. */
  lemma NextLoad(nodes: seq<NodeRow>, baseIds: set<NodeId>, rows: seq<DerivedRow>, boxes: Option<set<BoxId>>,
                 gone: set<NodeId>, row: NodeRow, premises: seq<NodeId>, group: GroupId, strength: real)
    requires row.id !in gone
    ensures Loaded(nodes + [row], baseIds, rows + EdgeRows(row.id, premises, group, strength), boxes, gone)
         == Assembled(Keep(nodes, gone) + [row], baseIds,
                      CurrentRows(rows, gone) + EdgeRows(row.id, Standing(premises, gone), group, strength), boxes)
  {
    KeptRow(nodes, row, gone);
    CurrentRowsOfSum(rows, EdgeRows(row.id, premises, group, strength), gone);
    EdgesAsRead(row.id, premises, group, strength, gone);
    hide Keep, CurrentRows, EdgeRows, Assembled;
  }

  // ---------------------------------------------------------------- what it says of the conclusion

  /** A condition the writer can test on what it loaded. */
  ghost predicate NextLoadAgrees(s: ActiveSubgraph, boxes: Option<set<BoxId>>, box: Option<BoxId>,
                                 premises: seq<NodeId>, gone: set<NodeId>)
  {
    && premises != []
    && if BoxIsActive(boxes, box) then
         || (forall p :: p in premises ==> p !in gone)
         || (forall p :: p in premises ==> p in gone)
         || (exists p :: p in premises && p !in gone && p !in SupportOf(s))
       else exists p :: p in premises && p !in SupportOf(s)
  }

  /** Zero annotations of a new conclusion mean that its premises are not all supported. */
  lemma ZeroMeansUnsupported(s: ActiveSubgraph, d: Derivation, strength: real, sr: Semiring)
    requires Absent(s, d.conclusion) && InputOf(Augmented(s, d, strength), {}, sr).InRange()
    ensures Annotates(Augmented(s, d, strength), sr, d.conclusion, 0, 0.0) <==> !(d.body <= SupportOf(s))
  {
    NewConclusionGrounds(s, d, strength);
    hide SupportOf, LayerB, Groundings, Absent, Augmented, s.graph.Rules;
  }

  /** The reassembled graph and the valued one, rule for rule, compared at the conclusion. */
  lemma ReloadedConclusion(s: ActiveSubgraph, t: ActiveSubgraph, sr: Semiring, cid: NodeId, premises: seq<NodeId>,
                           standing: seq<NodeId>, gone: set<NodeId>, strength: real, effect: bool, count: int,
                           confidence: real)
    requires InputOf(s, {}, sr).InRange() && InputOf(t, {}, sr).InRange() && Unit(strength) && Absent(s, cid)
    requires SupportOf(s) !! gone && standing == Standing(premises, gone)
    requires SameContent(if effect then Augmented(s, Derivation(cid, set p | p in standing), strength) else s, t)
    requires InputOf(Augmented(s, Derivation(cid, set p | p in premises), strength), {}, sr).InRange()
    requires Annotates(Augmented(s, Derivation(cid, set p | p in premises), strength), sr, cid, count, confidence)
    ensures Annotates(t, sr, cid, count, confidence)
       <==> if effect then
              || (forall p :: p in premises ==> p !in gone)
              || (exists p :: p in premises && p !in gone && p !in SupportOf(s))
            else exists p :: p in premises && p !in SupportOf(s)
  {
    hide Annotates, Absent, SameContent, Augmented, SupportOf, Standing;
    var d, shorter := Derivation(cid, set p | p in premises), Derivation(cid, set p | p in standing);
    NewConclusionCounts(s, d, strength, sr, count, confidence);
    PremisesAre(premises, SupportOf(s));
    PremisesAre(standing, SupportOf(s));
    if !effect {
      SameAnnotations(s, t, sr, cid, count, confidence);
      AbsentIsZero(s, sr, cid, count, confidence);
    } else {
      AugmentedInRange(s, shorter, strength, sr);
      SameAnnotations(Augmented(s, shorter, strength), t, sr, cid, count, confidence);
      if forall p :: p in premises ==> p !in gone {
        NoneGone(premises, gone);
      } else {
        ZeroMeansUnsupported(s, shorter, strength, sr);
      }
    }
  }

  /** The stored annotations of the new conclusion are those of the next load exactly when the
      proposal has a premise and
      - its box is active, and no premise is retracted, or all are, or one that is not is unsupported;
      - or its box is inactive and some premise is unsupported. */
  lemma LoadAgreesExactlyWhen(nodes: seq<NodeRow>, baseIds: set<NodeId>, rows: seq<DerivedRow>,
                              boxes: Option<set<BoxId>>, gone: set<NodeId>, row: NodeRow, premises: seq<NodeId>,
                              group: GroupId, strength: real, read: seq<DerivedRow>, sr: Semiring, count: int,
                              confidence: real)
    requires Proposable(nodes, baseIds, rows, row, group) && row.id !in gone
    requires ReadsBack(Keep(nodes, gone), boxes, CurrentRows(rows, gone),
                       CurrentRows(EdgeRows(row.id, premises, group, strength), gone), read)
    requires InputOf(Loaded(nodes, baseIds, rows, boxes, gone), {}, sr).InRange() && Unit(strength)
    requires InputOf(Assembled(Keep(nodes, gone) + [row], baseIds, read, boxes), {}, sr).InRange()
    requires var t := Augmented(Loaded(nodes, baseIds, rows, boxes, gone),
                                Derivation(row.id, set p | p in premises), strength);
             InputOf(t, {}, sr).InRange() && Annotates(t, sr, row.id, count, confidence)
    ensures Annotates(Assembled(Keep(nodes, gone) + [row], baseIds, read, boxes), sr, row.id, count, confidence)
       <==> NextLoadAgrees(Loaded(nodes, baseIds, rows, boxes, gone), boxes, row.box, premises, gone)
  {
    hide *;
    var kept, current, standing := Keep(nodes, gone), CurrentRows(rows, gone), Standing(premises, gone);
    var s, t := Loaded(nodes, baseIds, rows, boxes, gone), Assembled(kept + [row], baseIds, read, boxes);
    LoadedIs(nodes, baseIds, rows, boxes, gone);
    EdgesAsRead(row.id, premises, group, strength, gone);
    StillProposable(nodes, baseIds, rows, row, group, gone);
    NothingMentionsIt(kept, baseIds, current, boxes, row, group);
    LoadedSupport(nodes, baseIds, rows, boxes, gone);
    WrittenAsValued(kept, baseIds, current, boxes, row, standing, group, strength, read);
    ReloadedConclusion(s, t, sr, row.id, premises, standing, gone, strength, TakesEffect(boxes, row, standing), count,
                       confidence);
    AgreesBy(s, boxes, row, premises, gone);
  }

  lemma NothingMentionsIt(nodes: seq<NodeRow>, baseIds: set<NodeId>, rows: seq<DerivedRow>, boxes: Option<set<BoxId>>,
                          row: NodeRow, group: GroupId)
    requires Proposable(nodes, baseIds, rows, row, group)
    ensures Absent(Assembled(nodes, baseIds, rows, boxes), row.id)
  {
    hide Assembled, Absent, HasKey;
    FreshIsAbsent(nodes, baseIds, rows, boxes, row.id);
  }

  /** The condition, by whether the write takes effect on the next load. */
  lemma AgreesBy(s: ActiveSubgraph, boxes: Option<set<BoxId>>, row: NodeRow, premises: seq<NodeId>, gone: set<NodeId>)
    requires SupportOf(s) !! gone
    ensures NextLoadAgrees(s, boxes, row.box, premises, gone)
       <==> if TakesEffect(boxes, row, Standing(premises, gone)) then
              || (forall p :: p in premises ==> p !in gone)
              || (exists p :: p in premises && p !in gone && p !in SupportOf(s))
            else exists p :: p in premises && p !in SupportOf(s)
  {
    hide SupportOf, Standing;
    NoneStands(premises, gone, SupportOf(s));
  }

  lemma LoadedSupport(nodes: seq<NodeRow>, baseIds: set<NodeId>, rows: seq<DerivedRow>, boxes: Option<set<BoxId>>,
                      gone: set<NodeId>)
    ensures SupportOf(Loaded(nodes, baseIds, rows, boxes, gone)) !! gone
  {
    SupportIsKept(nodes, baseIds, CurrentRows(rows, gone), boxes, gone);
  }

  lemma NoneStands(premises: seq<NodeId>, gone: set<NodeId>, supported: set<NodeId>)
    requires supported !! gone
    ensures Standing(premises, gone) == [] <==> forall p :: p in premises ==> p in gone
    ensures premises != [] && (forall p :: p in premises ==> p in gone) ==>
              exists p :: p in premises && p !in supported
  {
    if Standing(premises, gone) != [] {
      assert Standing(premises, gone)[0] in Standing(premises, gone);
    }
    if premises != [] {
      assert premises[0] in premises;
    }
    if p :| p in premises && p !in gone {
      assert p in Standing(premises, gone);
    }
  }

  /** No other node's annotations change with the next load. */
  lemma OthersUnchangedByLoad(nodes: seq<NodeRow>, baseIds: set<NodeId>, rows: seq<DerivedRow>,
                              boxes: Option<set<BoxId>>, gone: set<NodeId>, row: NodeRow, premises: seq<NodeId>,
                              group: GroupId, strength: real, read: seq<DerivedRow>, sr: Semiring, n: NodeId,
                              count: int, confidence: real)
    requires Proposable(nodes, baseIds, rows, row, group) && row.id !in gone
    requires ReadsBack(Keep(nodes, gone), boxes, CurrentRows(rows, gone),
                       CurrentRows(EdgeRows(row.id, premises, group, strength), gone), read)
    requires InputOf(Loaded(nodes, baseIds, rows, boxes, gone), {}, sr).InRange() && Unit(strength) && n != row.id
    ensures var s, t := Loaded(nodes, baseIds, rows, boxes, gone),
              Assembled(Keep(nodes, gone) + [row], baseIds, read, boxes);
            InputOf(t, {}, sr).InRange()
            && (Annotates(t, sr, n, count, confidence) <==> Annotates(s, sr, n, count, confidence))
  {
    EdgesAsRead(row.id, premises, group, strength, gone);
    StillProposable(nodes, baseIds, rows, row, group, gone);
    hide Assembled, Annotates, ReadsBack, EdgeRows, CurrentRows, Keep, Proposable;
    OthersUnchangedByWrite(Keep(nodes, gone), baseIds, CurrentRows(rows, gone), boxes, row, Standing(premises, gone),
                           group, strength, read, sr, n, count, confidence);
  }

  // ---------------------------------------------------------------- the operator

  lemma ProposableWith(nodes: seq<NodeRow>, baseIds: set<NodeId>, rows: seq<DerivedRow>, row: NodeRow, group: GroupId)
    requires Proposable(nodes, baseIds, rows, row.(confidence := 0.0), group)
    ensures Proposable(nodes, baseIds, rows, row, group)
  {
  }

  lemma WrittenInRange(nodes: seq<NodeRow>, rows: seq<DerivedRow>, row: NodeRow, premises: seq<NodeId>,
                       group: GroupId, strength: real)
    requires RowsInRange(nodes, rows) && Unit(row.confidence) && Unit(strength)
    ensures RowsInRange(nodes + [row], rows + EdgeRows(row.id, premises, group, strength))
  {
  }

  lemma ValuedInUnit(s: ActiveSubgraph, sr: Semiring, n: NodeId, count: int, confidence: real)
    requires InputOf(s, {}, sr).InRange() && Annotates(s, sr, n, count, confidence)
    ensures Unit(confidence)
  {
    hide Support, Groundings, LayerB;
  }

  /** Loads, values and writes one proposal. A conclusion's row is written once, with the
      annotations computed on the augmented graph. */
  method DeriveConclusion(nodes: seq<NodeRow>, baseIds: set<NodeId>, rows: seq<DerivedRow>, boxes: Option<set<BoxId>>,
                          gone: set<NodeId>, cid: NodeId, box: BoxId, premises: seq<NodeId>, group: GroupId,
                          strength: real, sr: Semiring)
    returns (row: NodeRow, edges: seq<DerivedRow>, count: int)
    requires RowsInRange(nodes, rows) && Lawful(sr) && Unit(strength)
    requires Proposable(nodes, baseIds, rows, NodeRow(cid, Some(box), 0.0), group) && cid !in gone
    ensures row.id == cid && row.box == Some(box) && edges == EdgeRows(cid, premises, group, strength)
    ensures var s := Loaded(nodes, baseIds, rows, boxes, gone);
            InputOf(s, {}, sr).InRange() && Worth(s, sr, (set p | p in premises), strength, count, row.confidence)
    ensures var next := Loaded(nodes + [row], baseIds, rows + edges, boxes, gone);
            InputOf(next, {}, sr).InRange()
            && (Annotates(next, sr, cid, count, row.confidence)
                <==> NextLoadAgrees(Loaded(nodes, baseIds, rows, boxes, gone), boxes, Some(box), premises, gone))
  {
    hide *;
    var kept, current := Keep(nodes, gone), CurrentRows(rows, gone);
    ReadInRange(nodes, rows, gone);
    var s := AssembleSubgraph(kept, baseIds, current, boxes);
    AssembledInRange(kept, baseIds, current, boxes, {}, sr);
    LoadedIs(nodes, baseIds, rows, boxes, gone);
    var d := Derivation(cid, set p | p in premises);
    var confidence: real;
    count, confidence := ValueConclusion(s, d, strength, sr);
    row := NodeRow(cid, Some(box), confidence);
    edges := EdgeRows(cid, premises, group, strength);
    ValuedInUnit(Augmented(s, d, strength), sr, cid, count, confidence);
    StillProposable(nodes, baseIds, rows, NodeRow(cid, Some(box), 0.0), group, gone);
    NothingMentionsIt(kept, baseIds, current, boxes, NodeRow(cid, Some(box), 0.0), group);
    ConclusionIsWorth(s, d, strength, sr, count, confidence);
    ghost var read := CurrentRows(rows, gone) + CurrentRows(edges, gone);
    EdgesAsRead(cid, premises, group, strength, gone);
    WrittenInRange(kept, current, row, Standing(premises, gone), group, strength);
    AssembledInRange(kept + [row], baseIds, read, boxes, {}, sr);
    ProposableWith(nodes, baseIds, rows, row, group);
    AsWritten(kept, boxes, current, CurrentRows(edges, gone));
    LoadAgreesExactlyWhen(nodes, baseIds, rows, boxes, gone, row, premises, group, strength, read, sr, count, confidence);
    NextLoad(nodes, baseIds, rows, boxes, gone, row, premises, group, strength);
  }

  lemma LoadedIs(nodes: seq<NodeRow>, baseIds: set<NodeId>, rows: seq<DerivedRow>, boxes: Option<set<BoxId>>,
                 gone: set<NodeId>)
    ensures Loaded(nodes, baseIds, rows, boxes, gone)
         == Assembled(Keep(nodes, gone), baseIds, CurrentRows(rows, gone), boxes)
  {
  }

  lemma AsWritten(nodes: seq<NodeRow>, boxes: Option<set<BoxId>>, rows: seq<DerivedRow>, edges: seq<DerivedRow>)
    ensures ReadsBack(nodes, boxes, rows, edges, rows + edges)
  {
  }
}
