/**
 The adapter of src/iknos/core/derivation_adapter.py: property-graph rows become the inputs of
 Layer A and Layer B, and both layers are run over them.

 `RetractionIsAntitone` is the end-to-end guarantee: retracting nodes, deactivating boxes or
 losing evidence never enlarges the support and never raises a confidence.
 */
module DerivationAdapter {
  import opened Sets
  import opened TruthMaintenance
  import opened Confidence
  import opened Valuation
  import opened DerivationOrder

  datatype Option<+T> = None | Some(value: T)

  datatype BoxId = BoxId(tag: int)
  datatype GroupId = GroupId(tag: int)

  datatype NodeRow = NodeRow(id: NodeId, box: Option<BoxId>, confidence: real)

  /** One DERIVED_FROM edge. Edges that share a group id form one rule body. */
  datatype DerivedRow = DerivedRow(conclusion: NodeId, antecedent: NodeId, derivation: Option<GroupId>, strength: real)

  /** A row without a group id falls into the group of its conclusion. */
  datatype GroupKey = Grouped(id: GroupId) | ByConclusion(conclusion: NodeId)

  datatype ActiveSubgraph = ActiveSubgraph(graph: Graph, baseConfidence: map<NodeId, real>,
                                           strength: map<Derivation, real>)

  function KeyOf(row: DerivedRow): GroupKey {
    match row.derivation
    case Some(id) => Grouped(id)
    case None => ByConclusion(row.conclusion)
  }

  // ---------------------------------------------------------------- what the rows mean

  /** The row a node id stands for: the last one, as a dictionary keeps it. */
  ghost function RowOf(nodes: seq<NodeRow>, n: NodeId): Option<NodeRow> {
    if nodes == [] then None
    else if nodes[|nodes| - 1].id == n then Some(nodes[|nodes| - 1])
    else RowOf(nodes[..|nodes| - 1], n)
  }

  function BoxIsActive(boxes: Option<set<BoxId>>, box: Option<BoxId>): bool {
    boxes.None? || (box.Some? && box.value in boxes.value)
  }

  /** A node is active if it was loaded and its box passes the filter. */
  ghost predicate Active(nodes: seq<NodeRow>, boxes: Option<set<BoxId>>, n: NodeId) {
    var row := RowOf(nodes, n);
    row.Some? && BoxIsActive(boxes, row.value.box)
  }

  ghost predicate HasKey(rows: seq<DerivedRow>, key: GroupKey) {
    exists i :: 0 <= i < |rows| && KeyOf(rows[i]) == key
  }

  ghost function BodyOf(rows: seq<DerivedRow>, key: GroupKey): set<NodeId> {
    set i | 0 <= i < |rows| && KeyOf(rows[i]) == key :: rows[i].antecedent
  }

  /** The conclusion of a group is that of its last row. */
  ghost function ConclusionOf(rows: seq<DerivedRow>, key: GroupKey): NodeId
    requires HasKey(rows, key)
  {
    var last := rows[|rows| - 1];
    if KeyOf(last) == key then last.conclusion
    else
      assert HasKey(rows[..|rows| - 1], key) by {
        var i :| 0 <= i < |rows| && KeyOf(rows[i]) == key;
        assert rows[..|rows| - 1][i] == rows[i];
      }
      ConclusionOf(rows[..|rows| - 1], key)
  }

  ghost function StrengthsOf(rows: seq<DerivedRow>, key: GroupKey): seq<real> {
    if rows == [] then []
    else
      var last := rows[|rows| - 1];
      StrengthsOf(rows[..|rows| - 1], key) + if KeyOf(last) == key then [last.strength] else []
  }

  /** The group keys in the order a dictionary first meets them. */
  ghost function Keys(rows: seq<DerivedRow>): seq<GroupKey> {
    if rows == [] then []
    else
      var before, key := Keys(rows[..|rows| - 1]), KeyOf(rows[|rows| - 1]);
      if key in before then before else before + [key]
  }

  lemma {:induction false} KeysAreTheGroups(rows: seq<DerivedRow>)
    ensures Distinct(Keys(rows))
    ensures forall key :: key in Keys(rows) <==> HasKey(rows, key)
  {
    if rows != [] {
      var front, last := rows[..|rows| - 1], rows[|rows| - 1];
      KeysAreTheGroups(front);
      forall key
        ensures key in Keys(rows) <==> HasKey(rows, key)
      {
        if HasKey(front, key) {
          var i :| 0 <= i < |front| && KeyOf(front[i]) == key;
          assert rows[i] == front[i];
        }
        if HasKey(rows, key) {
          var i :| 0 <= i < |rows| && KeyOf(rows[i]) == key;
          assert i < |front| ==> front[i] == rows[i];
        }
        assert KeyOf(rows[|rows| - 1]) == KeyOf(last);
      }
    }
  }

  /** The rule a group of rows writes down. An inactive antecedent stays in the body. */
  ghost function RuleOf(rows: seq<DerivedRow>, key: GroupKey): Derivation
    requires HasKey(rows, key)
  {
    Derivation(ConclusionOf(rows, key), BodyOf(rows, key))
  }

  function LowestOf(xs: seq<real>): real
    requires xs != []
  {
    if |xs| == 1 then xs[0]
    else
      var rest := LowestOf(xs[..|xs| - 1]);
      if xs[|xs| - 1] < rest then xs[|xs| - 1] else rest
  }

  lemma {:induction false} StrengthsExist(rows: seq<DerivedRow>, key: GroupKey)
    ensures HasKey(rows, key) <==> StrengthsOf(rows, key) != []
  {
    if rows != [] {
      var front := rows[..|rows| - 1];
      StrengthsExist(front, key);
      if HasKey(front, key) {
        var i :| 0 <= i < |front| && KeyOf(front[i]) == key;
        assert rows[i] == front[i];
      }
      if HasKey(rows, key) {
        var i :| 0 <= i < |rows| && KeyOf(rows[i]) == key;
        assert i < |front| ==> front[i] == rows[i];
      }
    }
  }

  /** The weakest of a group's edge strengths. */
  ghost function StrengthOfGroup(rows: seq<DerivedRow>, key: GroupKey): real
    requires HasKey(rows, key)
  {
    StrengthsExist(rows, key);
    LowestOf(StrengthsOf(rows, key))
  }

  /** The rules of the first `k` groups whose conclusion is active, in dictionary order. */
  ghost function RulesUpTo(nodes: seq<NodeRow>, boxes: Option<set<BoxId>>, rows: seq<DerivedRow>, k: nat): seq<Derivation>
    requires k <= |Keys(rows)|
  {
    if k == 0 then []
    else
      KeysAreTheGroups(rows);
      var key := Keys(rows)[k - 1];
      assert key in Keys(rows);
      var before := RulesUpTo(nodes, boxes, rows, k - 1);
      if Active(nodes, boxes, ConclusionOf(rows, key)) then before + [RuleOf(rows, key)] else before
  }

  /** The strength map those groups write: a later group with the same rule overwrites. */
  ghost function StrengthsUpTo(nodes: seq<NodeRow>, boxes: Option<set<BoxId>>, rows: seq<DerivedRow>, k: nat
                               ): map<Derivation, real>
    requires k <= |Keys(rows)|
  {
    if k == 0 then map[]
    else
      KeysAreTheGroups(rows);
      var key := Keys(rows)[k - 1];
      assert key in Keys(rows);
      var before := StrengthsUpTo(nodes, boxes, rows, k - 1);
      if Active(nodes, boxes, ConclusionOf(rows, key)) then before[RuleOf(rows, key) := StrengthOfGroup(rows, key)]
      else before
  }

  ghost function ActiveAmong(nodes: seq<NodeRow>, boxes: Option<set<BoxId>>, ids: set<NodeId>): set<NodeId> {
    set n | n in ids && Active(nodes, boxes, n)
  }

  ghost function BaseConfidences(nodes: seq<NodeRow>, facts: set<NodeId>): map<NodeId, real> {
    map n | n in facts && RowOf(nodes, n).Some? :: RowOf(nodes, n).value.confidence
  }

  /** What `assemble_subgraph` returns. */
  ghost function Assembled(nodes: seq<NodeRow>, baseIds: set<NodeId>, rows: seq<DerivedRow>,
                           boxes: Option<set<BoxId>>): ActiveSubgraph
  {
    var facts := ActiveAmong(nodes, boxes, baseIds);
    var n := |Keys(rows)|;
    ActiveSubgraph(Graph(facts, SortDerivations(RulesUpTo(nodes, boxes, rows, n))),
                   BaseConfidences(nodes, facts),
                   StrengthsUpTo(nodes, boxes, rows, n))
  }

  // ---------------------------------------------------------------- the assembly

  method IndexNodes(nodes: seq<NodeRow>)
    returns (boxOf: map<NodeId, Option<BoxId>>, confidenceOf: map<NodeId, real>)
    ensures boxOf.Keys == confidenceOf.Keys
    ensures forall n :: n in boxOf <==> RowOf(nodes, n).Some?
    ensures forall n :: n in boxOf ==> boxOf[n] == RowOf(nodes, n).value.box
                                       && confidenceOf[n] == RowOf(nodes, n).value.confidence
  {
    boxOf, confidenceOf := map[], map[];
    for i := 0 to |nodes|
      invariant boxOf.Keys == confidenceOf.Keys
      invariant forall n :: n in boxOf <==> RowOf(nodes[..i], n).Some?
      invariant forall n :: n in boxOf ==> boxOf[n] == RowOf(nodes[..i], n).value.box
                                           && confidenceOf[n] == RowOf(nodes[..i], n).value.confidence
    {
      var row := nodes[i];
      assert nodes[..i + 1][..i] == nodes[..i];
      boxOf := boxOf[row.id := row.box];
      confidenceOf := confidenceOf[row.id := row.confidence];
    }
    assert nodes[..|nodes|] == nodes;
  }

  /** What the three dictionaries of the grouping loop hold for one key. */
  ghost predicate GroupIs(rows: seq<DerivedRow>, key: GroupKey, body: set<NodeId>, conclusion: NodeId,
                          strengths: seq<real>)
  {
    && HasKey(rows, key)
    && body == BodyOf(rows, key)
    && conclusion == ConclusionOf(rows, key)
    && strengths == StrengthsOf(rows, key)
  }

  ghost predicate Groups(rows: seq<DerivedRow>, keys: seq<GroupKey>, bodies: map<GroupKey, set<NodeId>>,
                         conclusions: map<GroupKey, NodeId>, strengths: map<GroupKey, seq<real>>)
  {
    && keys == Keys(rows)
    && (forall key :: key in bodies <==> key in keys)
    && bodies.Keys == conclusions.Keys == strengths.Keys
    && (forall key :: key in bodies ==> GroupIs(rows, key, bodies[key], conclusions[key], strengths[key]))
  }

  method GroupRows(rows: seq<DerivedRow>)
    returns (keys: seq<GroupKey>, bodies: map<GroupKey, set<NodeId>>, conclusions: map<GroupKey, NodeId>,
             strengths: map<GroupKey, seq<real>>)
    ensures Groups(rows, keys, bodies, conclusions, strengths)
  {
    keys, bodies, conclusions, strengths := [], map[], map[], map[];
    assert Groups(rows[..0], keys, bodies, conclusions, strengths);
    hide *;
    for i := 0 to |rows|
      invariant Groups(rows[..i], keys, bodies, conclusions, strengths)
    {
      var edge := rows[i];
      var key := KeyOf(edge);
      GroupsKeys(rows[..i], keys, bodies, conclusions, strengths);
      GroupOneMore(rows[..i], edge, keys, bodies, conclusions, strengths);
      ghost var next := rows[..i + 1];
      TakeMore(rows, i);
      conclusions := conclusions[key := edge.conclusion];
      if key in bodies {
        bodies := bodies[key := bodies[key] + {edge.antecedent}];
        strengths := strengths[key := strengths[key] + [edge.strength]];
        assert Groups(next, keys, bodies, conclusions, strengths);
      } else {
        keys := keys + [key];
        bodies := bodies[key := {edge.antecedent}];
        strengths := strengths[key := [edge.strength]];
        assert Groups(next, keys, bodies, conclusions, strengths);
      }
    }
    assert rows[..|rows|] == rows;
  }

  lemma GroupKept(rows: seq<DerivedRow>, edge: DerivedRow, key: GroupKey, body: set<NodeId>, conclusion: NodeId,
                  strengths: seq<real>)
    requires GroupIs(rows, key, body, conclusion, strengths) && key != KeyOf(edge)
    ensures GroupIs(rows + [edge], key, body, conclusion, strengths)
  {
    var all := rows + [edge];
    assert all[..|rows|] == rows;
    var i :| 0 <= i < |rows| && KeyOf(rows[i]) == key;
    assert all[i] == rows[i];
    BodyOneMore(rows, edge, key);
  }

  lemma GroupExtended(rows: seq<DerivedRow>, edge: DerivedRow)
    ensures GroupIs(rows + [edge], KeyOf(edge), BodyOf(rows, KeyOf(edge)) + {edge.antecedent}, edge.conclusion,
                    StrengthsOf(rows, KeyOf(edge)) + [edge.strength])
  {
    var all := rows + [edge];
    assert all[..|rows|] == rows && all[|rows|] == edge;
    assert KeyOf(all[|rows|]) == KeyOf(edge);
    BodyOneMore(rows, edge, KeyOf(edge));
  }

  lemma GroupsKeys(rows: seq<DerivedRow>, keys: seq<GroupKey>, bodies: map<GroupKey, set<NodeId>>,
                   conclusions: map<GroupKey, NodeId>, strengths: map<GroupKey, seq<real>>)
    requires Groups(rows, keys, bodies, conclusions, strengths)
    ensures bodies.Keys == conclusions.Keys == strengths.Keys && keys == Keys(rows)
  {
  }

  lemma KeysOneMore(rows: seq<DerivedRow>, edge: DerivedRow)
    ensures Keys(rows + [edge]) == if KeyOf(edge) in Keys(rows) then Keys(rows) else Keys(rows) + [KeyOf(edge)]
  {
    assert (rows + [edge])[..|rows|] == rows;
  }

  lemma GroupOneMore(rows: seq<DerivedRow>, edge: DerivedRow, keys: seq<GroupKey>,
                     bodies: map<GroupKey, set<NodeId>>, conclusions: map<GroupKey, NodeId>,
                     strengths: map<GroupKey, seq<real>>)
    requires Groups(rows, keys, bodies, conclusions, strengths)
    ensures var key, told := KeyOf(edge), conclusions[KeyOf(edge) := edge.conclusion];
            if key in bodies
            then key in strengths
                 && Groups(rows + [edge], keys, bodies[key := bodies[key] + {edge.antecedent}], told,
                           strengths[key := strengths[key] + [edge.strength]])
            else Groups(rows + [edge], keys + [key], bodies[key := {edge.antecedent}], told,
                        strengths[key := [edge.strength]])
  {
    hide Keys, BodyOf, ConclusionOf, StrengthsOf, HasKey;
    var key := KeyOf(edge);
    forall k | k in bodies && k != key
      ensures GroupIs(rows + [edge], k, bodies[k], conclusions[k], strengths[k])
    {
      GroupKept(rows, edge, k, bodies[k], conclusions[k], strengths[k]);
    }
    GroupExtended(rows, edge);
    KeysOneMore(rows, edge);
    if key !in bodies {
      KeysAreTheGroups(rows);
      StrengthsExist(rows, key);
      BodyOfNothing(rows, key);
    } else {
      assert GroupIs(rows, key, bodies[key], conclusions[key], strengths[key]);
    }
  }

  lemma BodyOneMore(rows: seq<DerivedRow>, edge: DerivedRow, key: GroupKey)
    ensures BodyOf(rows + [edge], key) == BodyOf(rows, key) + (if key == KeyOf(edge) then {edge.antecedent} else {})
  {
    var all := rows + [edge];
    forall a | a in BodyOf(all, key)
      ensures a in BodyOf(rows, key) + (if key == KeyOf(edge) then {edge.antecedent} else {})
    {
      var i :| 0 <= i < |all| && KeyOf(all[i]) == key && all[i].antecedent == a;
      if i < |rows| {
        assert rows[i] == all[i];
      }
    }
    forall a | a in BodyOf(rows, key)
      ensures a in BodyOf(all, key)
    {
      var i :| 0 <= i < |rows| && KeyOf(rows[i]) == key && rows[i].antecedent == a;
      assert all[i] == rows[i];
    }
    assert all[|rows|] == edge;
  }

  lemma BodyOfNothing(rows: seq<DerivedRow>, key: GroupKey)
    requires !HasKey(rows, key)
    ensures BodyOf(rows, key) == {}
  {
  }

  /** The rules and strengths of `k + 1` groups, from those of `k`. */
  lemma OneMoreGroup(nodes: seq<NodeRow>, boxes: Option<set<BoxId>>, rows: seq<DerivedRow>, k: nat)
    requires k < |Keys(rows)|
    ensures var key := Keys(rows)[k];
            && HasKey(rows, key)
            && var before, weights := RulesUpTo(nodes, boxes, rows, k), StrengthsUpTo(nodes, boxes, rows, k);
               if Active(nodes, boxes, ConclusionOf(rows, key))
               then RulesUpTo(nodes, boxes, rows, k + 1) == before + [RuleOf(rows, key)]
                    && StrengthsUpTo(nodes, boxes, rows, k + 1)
                       == weights[RuleOf(rows, key) := StrengthOfGroup(rows, key)]
               else RulesUpTo(nodes, boxes, rows, k + 1) == before
                    && StrengthsUpTo(nodes, boxes, rows, k + 1) == weights
  {
    KeysAreTheGroups(rows);
    assert Keys(rows)[k] in Keys(rows);
    hide Keys, Active, StrengthOfGroup, HasKey, BodyOf, ConclusionOf;
  }

  lemma GroupOf(rows: seq<DerivedRow>, keys: seq<GroupKey>, bodies: map<GroupKey, set<NodeId>>,
                conclusions: map<GroupKey, NodeId>, strengths: map<GroupKey, seq<real>>, key: GroupKey)
    requires Groups(rows, keys, bodies, conclusions, strengths) && key in keys
    ensures key in bodies && key in conclusions && key in strengths && HasKey(rows, key) && strengths[key] != []
    ensures Derivation(conclusions[key], bodies[key]) == RuleOf(rows, key)
    ensures conclusions[key] == ConclusionOf(rows, key) && LowestOf(strengths[key]) == StrengthOfGroup(rows, key)
  {
    hide Keys, BodyOf, ConclusionOf, HasKey, StrengthsOf, LowestOf;
    assert GroupIs(rows, key, bodies[key], conclusions[key], strengths[key]);
    StrengthsExist(rows, key);
  }

  lemma ActiveByIndex(nodes: seq<NodeRow>, boxes: Option<set<BoxId>>, boxOf: map<NodeId, Option<BoxId>>, n: NodeId)
    requires forall m :: m in boxOf <==> RowOf(nodes, m).Some?
    requires forall m :: m in boxOf ==> boxOf[m] == RowOf(nodes, m).value.box
    ensures Active(nodes, boxes, n) <==> n in boxOf && BoxIsActive(boxes, boxOf[n])
  {
  }

  /** Regroups the raw rows. The sort makes the list of rules a function of its contents. */
  method AssembleSubgraph(nodes: seq<NodeRow>, baseIds: set<NodeId>, rows: seq<DerivedRow>,
                          boxes: Option<set<BoxId>>)
    returns (s: ActiveSubgraph)
    ensures s == Assembled(nodes, baseIds, rows, boxes)
  {
    var boxOf, confidenceOf := IndexNodes(nodes);
    var facts := set n | n in baseIds && n in boxOf && BoxIsActive(boxes, boxOf[n]);
    assert facts == ActiveAmong(nodes, boxes, baseIds);
    var keys, bodies, conclusions, strengths := GroupRows(rows);
    var ds: seq<Derivation>, strengthOf: map<Derivation, real> := [], map[];
    GroupsKeys(rows, keys, bodies, conclusions, strengths);
    var baseConfidence := map n | n in facts :: confidenceOf[n];
    assert baseConfidence == BaseConfidences(nodes, facts);
    assert RulesUpTo(nodes, boxes, rows, 0) == [] && StrengthsUpTo(nodes, boxes, rows, 0) == map[];
    hide Groups, RulesUpTo, StrengthsUpTo, RuleOf, StrengthOfGroup, Active, BoxIsActive, Keys, LowestOf, SortDerivations;
    for k := 0 to |keys|
      invariant ds == RulesUpTo(nodes, boxes, rows, k) && strengthOf == StrengthsUpTo(nodes, boxes, rows, k)
    {
      var key := keys[k];
      GroupOf(rows, keys, bodies, conclusions, strengths, key);
      OneMoreGroup(nodes, boxes, rows, k);
      ActiveByIndex(nodes, boxes, boxOf, conclusions[key]);
      var conclusion := conclusions[key];
      if conclusion in boxOf && BoxIsActive(boxes, boxOf[conclusion]) {
        var d := Derivation(conclusion, bodies[key]);
        ds := ds + [d];
        strengthOf := strengthOf[d := LowestOf(strengths[key])];
      }
    }
    s := ActiveSubgraph(Graph(facts, SortDerivations(ds)), baseConfidence, strengthOf);
  }

  function InputOf(s: ActiveSubgraph, supported: set<NodeId>, sr: Semiring): Input {
    Input(s.graph, supported, s.baseConfidence, s.strength, sr)
  }

  ghost function SupportOf(s: ActiveSubgraph): set<NodeId> {
    Support(s.graph.baseFacts, s.graph.Rules())
  }

  /** Row confidences and strengths are degrees in [0, 1]. */
  ghost predicate RowsInRange(nodes: seq<NodeRow>, rows: seq<DerivedRow>) {
    && (forall i :: 0 <= i < |nodes| ==> Unit(nodes[i].confidence))
    && (forall i :: 0 <= i < |rows| ==> Unit(rows[i].strength))
  }

  /** The two-layer seam: Layer A certifies, Layer B scores exactly the certified set. */
  method SupportAndConfidence(s: ActiveSubgraph, sr: Semiring)
    returns (supported: set<NodeId>, confidence: map<NodeId, real>)
    requires InputOf(s, {}, sr).InRange()
    ensures supported == SupportOf(s)
    ensures LeastFixpoint(InputOf(s, supported, sr), confidence)
  {
    supported := WellFoundedSupport(s.graph);
    var r, rounds := Valuate(InputOf(s, supported, sr));
    confidence := r.confidence;
  }

  // ---------------------------------------------------------------- retraction

  /** The rows left when a set of nodes is retracted, as the revision loop re-reads them. */
  function Keep(nodes: seq<NodeRow>, retracted: set<NodeId>): seq<NodeRow> {
    if nodes == [] then []
    else
      var last := nodes[|nodes| - 1];
      Keep(nodes[..|nodes| - 1], retracted) + if last.id in retracted then [] else [last]
  }

  lemma {:induction false} RowOfKept(nodes: seq<NodeRow>, retracted: set<NodeId>, n: NodeId)
    ensures RowOf(Keep(nodes, retracted), n) == if n in retracted then None else RowOf(nodes, n)
  {
    if nodes != [] {
      var front, last := nodes[..|nodes| - 1], nodes[|nodes| - 1];
      RowOfKept(front, retracted, n);
      if last.id !in retracted {
        assert Keep(nodes, retracted)[..|Keep(front, retracted)|] == Keep(front, retracted);
      } else {
        assert Keep(nodes, retracted) == Keep(front, retracted);
      }
    }
  }

  lemma RowsCarryUnits(nodes: seq<NodeRow>, n: NodeId)
    requires forall i :: 0 <= i < |nodes| ==> Unit(nodes[i].confidence)
    ensures RowOf(nodes, n).Some? ==> Unit(RowOf(nodes, n).value.confidence)
  {
    if nodes != [] && nodes[|nodes| - 1].id != n {
      RowsCarryUnits(nodes[..|nodes| - 1], n);
    }
  }

  lemma {:induction false} GroupStrengthInUnit(rows: seq<DerivedRow>, key: GroupKey)
    requires forall i :: 0 <= i < |rows| ==> Unit(rows[i].strength)
    ensures forall x :: x in StrengthsOf(rows, key) ==> Unit(x)
  {
    if rows != [] {
      GroupStrengthInUnit(rows[..|rows| - 1], key);
    }
  }

  lemma {:induction false} LowestIsOne(xs: seq<real>)
    requires xs != []
    ensures LowestOf(xs) in xs
    ensures forall x :: x in xs ==> LowestOf(xs) <= x
  {
    if |xs| > 1 {
      LowestIsOne(xs[..|xs| - 1]);
      assert xs == xs[..|xs| - 1] + [xs[|xs| - 1]];
    }
  }

  lemma {:induction false} StrengthMapFacts(nodes: seq<NodeRow>, boxes: Option<set<BoxId>>, rows: seq<DerivedRow>, k: nat)
    requires k <= |Keys(rows)|
    ensures forall d :: d in StrengthsUpTo(nodes, boxes, rows, k) <==> d in RulesUpTo(nodes, boxes, rows, k)
    ensures forall d :: d in RulesUpTo(nodes, boxes, rows, k) ==> Active(nodes, boxes, d.conclusion)
    ensures (forall i :: 0 <= i < |rows| ==> Unit(rows[i].strength)) ==>
            forall d :: d in StrengthsUpTo(nodes, boxes, rows, k) ==> Unit(StrengthsUpTo(nodes, boxes, rows, k)[d])
  {
    if k > 0 {
      StrengthMapFacts(nodes, boxes, rows, k - 1);
      KeysAreTheGroups(rows);
      var key := Keys(rows)[k - 1];
      assert key in Keys(rows);
      StrengthsExist(rows, key);
      LowestIsOne(StrengthsOf(rows, key));
      if forall i :: 0 <= i < |rows| ==> Unit(rows[i].strength) {
        GroupStrengthInUnit(rows, key);
      }
      hide BodyOf, ConclusionOf, Active, Keys;
    }
  }

  lemma AssembledInRange(nodes: seq<NodeRow>, baseIds: set<NodeId>, rows: seq<DerivedRow>,
                         boxes: Option<set<BoxId>>, supported: set<NodeId>, sr: Semiring)
    requires RowsInRange(nodes, rows) && Lawful(sr)
    ensures InputOf(Assembled(nodes, baseIds, rows, boxes), supported, sr).InRange()
  {
    StrengthMapFacts(nodes, boxes, rows, |Keys(rows)|);
    forall n
      ensures RowOf(nodes, n).Some? ==> Unit(RowOf(nodes, n).value.confidence)
    {
      RowsCarryUnits(nodes, n);
    }
  }

  lemma RulesOfAssembled(nodes: seq<NodeRow>, baseIds: set<NodeId>, rows: seq<DerivedRow>, boxes: Option<set<BoxId>>)
    ensures forall d :: d in Assembled(nodes, baseIds, rows, boxes).graph.derivations
                   <==> d in RulesUpTo(nodes, boxes, rows, |Keys(rows)|)
  {
    var ds := RulesUpTo(nodes, boxes, rows, |Keys(rows)|);
    forall d
      ensures d in SortDerivations(ds) <==> d in ds
    {
      assert d in multiset(SortDerivations(ds)) <==> d in multiset(ds);
    }
  }

  /** `nodes'` and `boxes'` make fewer nodes active, and no others, with the same rows. */
  ghost predicate Narrows(nodes: seq<NodeRow>, boxes: Option<set<BoxId>>, nodes': seq<NodeRow>,
                          boxes': Option<set<BoxId>>)
  {
    forall n :: Active(nodes', boxes', n) ==> Active(nodes, boxes, n) && RowOf(nodes', n) == RowOf(nodes, n)
  }

  lemma RetractionNarrows(nodes: seq<NodeRow>, retracted: set<NodeId>, retracted': set<NodeId>,
                          boxes: Option<set<BoxId>>, boxes': Option<set<BoxId>>)
    requires retracted <= retracted'
    requires boxes.Some? ==> boxes'.Some? && boxes'.value <= boxes.value
    ensures Narrows(Keep(nodes, retracted), boxes, Keep(nodes, retracted'), boxes')
  {
    forall n
      ensures RowOf(Keep(nodes, retracted), n) == (if n in retracted then None else RowOf(nodes, n))
      ensures RowOf(Keep(nodes, retracted'), n) == (if n in retracted' then None else RowOf(nodes, n))
    {
      RowOfKept(nodes, retracted, n);
      RowOfKept(nodes, retracted', n);
    }
  }

  /** A rule whose conclusion survives keeps its strength: activity is decided by conclusion. */
  lemma {:induction false} NarrowedRules(nodes: seq<NodeRow>, boxes: Option<set<BoxId>>, nodes': seq<NodeRow>,
                                         boxes': Option<set<BoxId>>, rows: seq<DerivedRow>, k: nat, d: Derivation)
    requires k <= |Keys(rows)| && Narrows(nodes, boxes, nodes', boxes') && Active(nodes', boxes', d.conclusion)
    ensures d in StrengthsUpTo(nodes', boxes', rows, k) <==> d in StrengthsUpTo(nodes, boxes, rows, k)
    ensures d in StrengthsUpTo(nodes, boxes, rows, k) ==>
            StrengthsUpTo(nodes', boxes', rows, k)[d] == StrengthsUpTo(nodes, boxes, rows, k)[d]
  {
    hide BodyOf, ConclusionOf, Active, RowOf, StrengthOfGroup;
    if k > 0 {
      NarrowedRules(nodes, boxes, nodes', boxes', rows, k - 1, d);
      KeysAreTheGroups(rows);
      assert Keys(rows)[k - 1] in Keys(rows);
    }
  }

  lemma NarrowedExtends(nodes: seq<NodeRow>, boxes: Option<set<BoxId>>, nodes': seq<NodeRow>,
                        boxes': Option<set<BoxId>>, baseIds: set<NodeId>, baseIds': set<NodeId>,
                        rows: seq<DerivedRow>, sr: Semiring)
    requires Narrows(nodes, boxes, nodes', boxes') && baseIds' <= baseIds
    ensures var s, s' := Assembled(nodes, baseIds, rows, boxes), Assembled(nodes', baseIds', rows, boxes');
            SupportOf(s') <= SupportOf(s) && Extends(InputOf(s, SupportOf(s), sr), InputOf(s', SupportOf(s'), sr))
  {
    var s, s' := Assembled(nodes, baseIds, rows, boxes), Assembled(nodes', baseIds', rows, boxes');
    var n := |Keys(rows)|;
    RulesOfAssembled(nodes, baseIds, rows, boxes);
    RulesOfAssembled(nodes', baseIds', rows, boxes');
    StrengthMapFacts(nodes, boxes, rows, n);
    StrengthMapFacts(nodes', boxes', rows, n);
    forall d | d in s'.graph.derivations
      ensures d in s.graph.derivations && d in s.strength && d in s'.strength && s.strength[d] == s'.strength[d]
    {
      NarrowedRules(nodes, boxes, nodes', boxes', rows, n, d);
    }
    assert s'.graph.baseFacts <= s.graph.baseFacts;
    assert s'.graph.Rules() <= s.graph.Rules();
    SupportMonotone(s'.graph.baseFacts, s'.graph.Rules(), s.graph.baseFacts, s.graph.Rules());
    forall f | f in s'.graph.baseFacts
      ensures f in s.baseConfidence && f in s'.baseConfidence && s.baseConfidence[f] == s'.baseConfidence[f]
    {
      assert Active(nodes', boxes', f);
    }
  }

  /** Retracting more nodes, keeping fewer boxes active or losing evidence, with the derivation
      rows held fixed, never enlarges the support and never raises a confidence. */
  lemma RetractionIsAntitone(nodes: seq<NodeRow>, rows: seq<DerivedRow>, sr: Semiring,
                             retracted: set<NodeId>, baseIds: set<NodeId>, boxes: Option<set<BoxId>>,
                             retracted': set<NodeId>, baseIds': set<NodeId>, boxes': Option<set<BoxId>>,
                             conf: map<NodeId, real>, conf': map<NodeId, real>)
    requires RowsInRange(nodes, rows) && Lawful(sr)
    requires retracted <= retracted' && baseIds' <= baseIds
    requires boxes.Some? ==> boxes'.Some? && boxes'.value <= boxes.value
    requires var s := Assembled(Keep(nodes, retracted), baseIds, rows, boxes);
             LeastFixpoint(InputOf(s, SupportOf(s), sr), conf)
    requires var s' := Assembled(Keep(nodes, retracted'), baseIds', rows, boxes');
             LeastFixpoint(InputOf(s', SupportOf(s'), sr), conf')
    ensures conf'.Keys <= conf.Keys
    ensures forall n :: n in conf' ==> conf'[n] <= conf[n]
  {
    hide Assembled, Support;
    var s := Assembled(Keep(nodes, retracted), baseIds, rows, boxes);
    var s' := Assembled(Keep(nodes, retracted'), baseIds', rows, boxes');
    KeptInRange(nodes, rows, retracted);
    KeptInRange(nodes, rows, retracted');
    AssembledInRange(Keep(nodes, retracted), baseIds, rows, boxes, SupportOf(s), sr);
    AssembledInRange(Keep(nodes, retracted'), baseIds', rows, boxes', SupportOf(s'), sr);
    RetractionNarrows(nodes, retracted, retracted', boxes, boxes');
    NarrowedExtends(Keep(nodes, retracted), boxes, Keep(nodes, retracted'), boxes', baseIds, baseIds', rows, sr);
    ConfidenceGrows(InputOf(s, SupportOf(s), sr), InputOf(s', SupportOf(s'), sr), conf, conf');
  }

  lemma {:induction false} KeptInRange(nodes: seq<NodeRow>, rows: seq<DerivedRow>, retracted: set<NodeId>)
    requires RowsInRange(nodes, rows)
    ensures RowsInRange(Keep(nodes, retracted), rows)
  {
    if nodes != [] {
      KeptInRange(nodes[..|nodes| - 1], rows, retracted);
    }
  }
}
