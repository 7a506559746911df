/**
 Inputs on which the row read of src/iknos/core/derivation_adapter.py and the contract of the
 assembly part: a conclusion revived, a confidence raised with the support unchanged, and a
 confidence lowered, because two groups shrink to one rule and the weaker one is written last.
 */
module RevivingRead {
  import opened TruthMaintenance
  import opened Confidence
  import opened Valuation
  import opened DerivationAdapter
  import opened RowOrder
  import opened Derive
  import opened CurrentRead

  // ---------------------------------------------------------------- a conclusion revived

  /** One evidence node, a rule that needs two, the second retracted: the contract leaves the
      conclusion unsupported, the read supports it. */
  lemma ReadRevivesAConclusion(a: NodeId, b: NodeId, c: NodeId, group: GroupId)
    requires a != b && b != c && a != c
    ensures var nodes := [NodeRow(a, None, 1.0), NodeRow(b, None, 1.0), NodeRow(c, None, 1.0)];
            var rows := [DerivedRow(c, a, Some(group), 1.0), DerivedRow(c, b, Some(group), 1.0)];
            var asAsked := Assembled(Keep(nodes, {b}), {a, b}, rows, None);
            var asRead := Assembled(Keep(nodes, {b}), {a, b}, CurrentRows(rows, {b}), None);
            c !in SupportOf(asAsked) && c in SupportOf(asRead)
  {
    hide *;
    var nodes := [NodeRow(a, None, 1.0), NodeRow(b, None, 1.0), NodeRow(c, None, 1.0)];
    var rows := [DerivedRow(c, a, Some(group), 1.0), DerivedRow(c, b, Some(group), 1.0)];
    TwoEdgeGroup(nodes, a, b, c, group);
    var asAsked := Assembled(Keep(nodes, {b}), {a, b}, rows, None);
    var asRead := Assembled(Keep(nodes, {b}), {a, b}, CurrentRows(rows, {b}), None);
    SupportIs(asAsked);
    SupportIs(asRead);
    NeedsBoth(asAsked.graph.baseFacts, asAsked.graph.Rules(), a, b, c);
    ReadKeepsSupport(nodes, {a, b}, rows, None, {b});
    RevivesConclusion(asAsked.graph.baseFacts, asAsked.graph.Rules(), a, b, c);
    SameFacts(Keep(nodes, {b}), {a, b}, rows, CurrentRows(rows, {b}), None);
    CurrentRules(nodes, {a, b}, rows, None, {b}, Derivation(c, {a}));
    ShrunkIs(a, b, c);
    OneStep(asRead.graph.baseFacts, asRead.graph.Rules(), a, c);
  }

  lemma ShrunkIs(a: NodeId, b: NodeId, c: NodeId)
    requires a != b
    ensures Derivation(c, {a, b}).body - {b} != {} && Shrunk(Derivation(c, {a, b}), {b}) == Derivation(c, {a})
  {
    assert {a, b} - {b} == {a};
  }

  lemma OneStep(base: set<NodeId>, rules: set<Derivation>, a: NodeId, c: NodeId)
    requires a in base && Derivation(c, {a}) in rules
    ensures c in Support(base, rules)
  {
    SupportIsLeast(base, rules);
  }

  lemma NeedsBoth(base: set<NodeId>, rules: set<Derivation>, a: NodeId, b: NodeId, c: NodeId)
    requires base == {a} && rules == {Derivation(c, {a, b})} && a != b && b != c && a != c
    ensures Support(base, rules) == {a}
  {
    SupportIsLeast(base, rules);
    assert b in Derivation(c, {a, b}).body;
    assert Closed(base, rules, {a});
  }

  lemma RevivesConclusion(base: set<NodeId>, rules: set<Derivation>, a: NodeId, b: NodeId, c: NodeId)
    requires a != b && a != c && Support(base, rules) == {a}
    ensures Revives(Derivation(c, {a, b}), Support(base, rules), {b})
  {
    ShrunkIs(a, b, c);
  }

  lemma TwoEdgeGroup(nodes: seq<NodeRow>, a: NodeId, b: NodeId, c: NodeId, group: GroupId)
    requires nodes == [NodeRow(a, None, 1.0), NodeRow(b, None, 1.0), NodeRow(c, None, 1.0)]
    requires a != b && b != c && a != c
    ensures var rows := [DerivedRow(c, a, Some(group), 1.0), DerivedRow(c, b, Some(group), 1.0)];
            var s := Assembled(Keep(nodes, {b}), {a, b}, rows, None);
            OneConclusionPerGroup(rows) && s.graph.baseFacts == {a} && s.graph.Rules() == {Derivation(c, {a, b})}
  {
    var rows := [DerivedRow(c, a, Some(group), 1.0), DerivedRow(c, b, Some(group), 1.0)];
    var kept := Keep(nodes, {b});
    TwoRowsOneGroup(rows, a, b, c, group);
    var s := Assembled(kept, {a, b}, rows, None);
    TwoOfThree(nodes, a, b, c);
    hide Assembled, BodyOf, Active, Keep, ConclusionOf, HasKey, KeyOf;
    assert WritesRule(kept, None, rows, Grouped(group), Derivation(c, {a, b}));
    assert ActiveAmong(kept, None, {a, b}) == {a};
    forall d
      ensures d in s.graph.Rules() <==> d == Derivation(c, {a, b})
    {
      RuleIsWritten(kept, {a, b}, rows, None, d);
      if key :| WritesRule(kept, None, rows, key, d) {
        HasKeyOfRow(rows, key);
      }
    }
  }

  lemma TwoRowsOneGroup(rows: seq<DerivedRow>, a: NodeId, b: NodeId, c: NodeId, group: GroupId)
    requires rows == [DerivedRow(c, a, Some(group), 1.0), DerivedRow(c, b, Some(group), 1.0)]
    ensures OneConclusionPerGroup(rows) && forall row :: row in rows ==> KeyOf(row) == Grouped(group)
    ensures HasKey(rows, Grouped(group)) && RuleOf(rows, Grouped(group)) == Derivation(c, {a, b})
  {
    assert KeyOf(rows[0]) == KeyOf(rows[1]) == Grouped(group);
    assert BodyOf(rows, Grouped(group)) == {a, b} by {
      assert rows[0].antecedent == a && rows[1].antecedent == b;
    }
  }

  lemma TwoOfThree(nodes: seq<NodeRow>, a: NodeId, b: NodeId, c: NodeId)
    requires nodes == [NodeRow(a, None, 1.0), NodeRow(b, None, 1.0), NodeRow(c, None, 1.0)]
    requires a != b && b != c && a != c
    ensures forall n :: Active(Keep(nodes, {b}), None, n) <==> n == a || n == c
  {
    forall n
      ensures Active(Keep(nodes, {b}), None, n) <==> n == a || n == c
    {
      RowOfKept(nodes, {b}, n);
      ThreeRows(nodes, a, b, c, n);
      hide Keep, RowOf;
    }
  }

  lemma ThreeRows(nodes: seq<NodeRow>, a: NodeId, b: NodeId, c: NodeId, n: NodeId)
    requires nodes == [NodeRow(a, None, 1.0), NodeRow(b, None, 1.0), NodeRow(c, None, 1.0)]
    ensures RowOf(nodes, n).Some? <==> n == a || n == b || n == c
  {
    assert nodes[..2][..1] == nodes[..1];
    assert nodes[..1][..0] == [];
    assert RowOf(nodes, n).Some? <==> nodes[2].id == n || RowOf(nodes[..2], n).Some?;
    assert RowOf(nodes[..2], n).Some? <==> nodes[1].id == n || RowOf(nodes[..1], n).Some?;
  }

  // ---------------------------------------------------------------- groups and scores

  /** A group whose rows agree on conclusion and strength. */
  lemma UniformGroup(rows: seq<DerivedRow>, key: GroupKey, d: Derivation, strength: real)
    requires d.body != {}
    requires forall row :: row in rows && KeyOf(row) == key ==>
               row.conclusion == d.conclusion && row.antecedent in d.body && row.strength == strength
    requires forall a :: a in d.body ==> exists row :: row in rows && KeyOf(row) == key && row.antecedent == a
    ensures HasKey(rows, key) && RuleOf(rows, key) == d && StrengthOfGroup(rows, key) == strength
  {
    hide HasKey, BodyOf, ConclusionOf, StrengthsOf;
    var a :| a in d.body;
    HasKeyOfRow(rows, key);
    ConclusionOfRow(rows, key);
    forall a
      ensures a in BodyOf(rows, key) <==> a in d.body
    {
      BodyOfRows(rows, key, a);
    }
    StrengthsExist(rows, key);
    LowestIsOne(StrengthsOf(rows, key));
    StrengthsOfRows(rows, key, StrengthOfGroup(rows, key));
  }

  lemma OneRowGroup(rows: seq<DerivedRow>, row: DerivedRow)
    requires row in rows && forall r :: r in rows && KeyOf(r) == KeyOf(row) ==> r == row
    ensures var key := KeyOf(row);
            && HasKey(rows, key) && RuleOf(rows, key) == Derivation(row.conclusion, {row.antecedent})
            && StrengthOfGroup(rows, key) == row.strength
  {
    hide HasKey, RuleOf, StrengthOfGroup, KeyOf;
    UniformGroup(rows, KeyOf(row), Derivation(row.conclusion, {row.antecedent}), row.strength);
  }

  lemma TwoRowGroup(rows: seq<DerivedRow>, row: DerivedRow, row': DerivedRow)
    requires row in rows && row' in rows && KeyOf(row) == KeyOf(row')
    requires row.conclusion == row'.conclusion && row.strength == row'.strength
    requires forall r :: r in rows && KeyOf(r) == KeyOf(row) ==> r == row || r == row'
    ensures var key := KeyOf(row);
            && HasKey(rows, key) && RuleOf(rows, key) == Derivation(row.conclusion, {row.antecedent, row'.antecedent})
            && StrengthOfGroup(rows, key) == row.strength
  {
    hide HasKey, RuleOf, StrengthOfGroup, KeyOf;
    UniformGroup(rows, KeyOf(row), Derivation(row.conclusion, {row.antecedent, row'.antecedent}), row.strength);
  }

  /** Two groups, two rules for one conclusion. */
  ghost predicate TwoWriters(rows: seq<DerivedRow>, c: NodeId, g: GroupId, h: GroupId, d: Derivation, e: Derivation,
                             p: real, q: real)
  {
    && d != e && d.conclusion == e.conclusion == c
    && (forall row :: row in rows ==> KeyOf(row) == Grouped(g) || KeyOf(row) == Grouped(h))
    && HasKey(rows, Grouped(g)) && RuleOf(rows, Grouped(g)) == d && StrengthOfGroup(rows, Grouped(g)) == p
    && HasKey(rows, Grouped(h)) && RuleOf(rows, Grouped(h)) == e && StrengthOfGroup(rows, Grouped(h)) == q
  }

  lemma TwoWritersAssembled(nodes: seq<NodeRow>, baseIds: set<NodeId>, rows: seq<DerivedRow>,
                            boxes: Option<set<BoxId>>, c: NodeId, g: GroupId, h: GroupId, d: Derivation, e: Derivation,
                            p: real, q: real)
    requires TwoWriters(rows, c, g, h, d, e, p, q) && Active(nodes, boxes, c)
    ensures var s := Assembled(nodes, baseIds, rows, boxes);
            && s.graph.Rules() == {d, e} && d in s.strength && s.strength[d] == p && e in s.strength && s.strength[e] == q
  {
    hide HasKey, RuleOf, StrengthOfGroup, Active, Assembled;
    var s := Assembled(nodes, baseIds, rows, boxes);
    forall key, r | WritesRule(nodes, boxes, rows, key, r)
      ensures key == Grouped(g) || key == Grouped(h)
    {
      HasKeyOfRow(rows, key);
    }
    assert WritesRule(nodes, boxes, rows, Grouped(g), d) && WritesRule(nodes, boxes, rows, Grouped(h), e);
    assert WritersAgree(nodes, boxes, rows);
    forall r
      ensures r in s.graph.derivations <==> r == d || r == e
    {
      AssembledAt(nodes, baseIds, rows, boxes, r);
    }
    AssembledAt(nodes, baseIds, rows, boxes, d);
    AssembledAt(nodes, baseIds, rows, boxes, e);
  }

  /** When every rule concludes `c` from base facts or from what is nowhere derived. */
  lemma SupportOfOneConclusion(base: set<NodeId>, rules: set<Derivation>, c: NodeId)
    requires c !in base && forall r :: r in rules ==> r.conclusion == c && c !in r.body
    ensures Support(base, rules) == base + if exists r :: r in rules && r.body <= base then {c} else {}
  {
    SupportIsLeast(base, rules);
    hide Support;
    if exists r :: r in rules && r.body <= base {
      assert Closed(base, rules, base + {c});
    } else {
      assert Closed(base, rules, base);
    }
  }

  /** A rule from one fact of full confidence lends exactly its strength. */
  lemma FromFullFact(v: Input, conf: map<NodeId, real>, d: Derivation, a: NodeId)
    requires v.InRange() && v.Assigns(conf) && v.Grounded(d) && d.body == {a} && conf[a] == 1.0
    ensures v.Contribution(conf, d) == v.StrengthOf(d)
  {
    BodyAnyOrder(v.sr, conf, {a}, a);
    assert {a} - {a} == {};
    assert LawsOfTwo(v.sr, 1.0, 1.0) && LawsOfTwo(v.sr, v.StrengthOf(d), 1.0) && LawsOfTwo(v.sr, 1.0, v.StrengthOf(d));
  }

  ghost predicate FromOneFact(v: Input, d: Derivation) {
    exists a :: a in v.graph.baseFacts && a in v.supported && d.body == {a} && v.BaseOf(a) == 1.0
  }

  /** A conclusion of such rules scores the strength of the best of them. */
  lemma BestOfFullFacts(v: Input, conf: map<NodeId, real>, c: NodeId, d: Derivation)
    requires v.InRange() && LeastFixpoint(v, conf) && c !in v.graph.baseFacts && v.Grounds(d, c)
    requires forall e :: v.Grounds(e, c) ==> v.StrengthOf(e) <= v.StrengthOf(d) && FromOneFact(v, e)
    ensures c in conf && conf[c] == v.StrengthOf(d)
  {
    LeastIsFixpoint(v, conf);
    NodeValueIsBest(v, conf, c);
    hide LeastFixpoint, v.NodeValue, v.Contribution;
    forall e | v.Grounds(e, c)
      ensures v.Contribution(conf, e) == v.StrengthOf(e)
    {
      var a :| a in v.graph.baseFacts && a in v.supported && e.body == {a} && v.BaseOf(a) == 1.0;
      NodeValueIsBest(v, conf, a);
      FromFullFact(v, conf, e, a);
    }
  }

  /** Loaded with full confidence. */
  ghost predicate Known(nodes: seq<NodeRow>, ids: set<NodeId>) {
    forall n :: n in ids ==> RowOf(nodes, n).Some? && RowOf(nodes, n).value.confidence == 1.0
  }

  /** What the two subgraphs below have in common: full facts, and rules for `c` alone. */
  ghost predicate OnlyRulesFor(s: ActiveSubgraph, c: NodeId, facts: set<NodeId>, rules: set<Derivation>) {
    && s.graph.baseFacts == facts && c !in facts && s.graph.Rules() == rules
    && (forall n :: n in facts ==> n in s.baseConfidence && s.baseConfidence[n] == 1.0)
    && (forall r :: r in rules ==> r.conclusion == c && c !in r.body && r in s.strength)
  }

  /** The best of the rules that rest on one fact decides, if the others rest on none. */
  lemma ScoreOf(s: ActiveSubgraph, sr: Semiring, c: NodeId, facts: set<NodeId>, rules: set<Derivation>, d: Derivation)
    requires InputOf(s, {}, sr).InRange() && OnlyRulesFor(s, c, facts, rules) && d in rules && d.body <= facts
    requires forall r :: r in rules && r.body <= facts ==>
               s.strength[r] <= s.strength[d] && exists a :: a in facts && r.body == {a}
    ensures SupportOf(s) == facts + {c} && c in LayerB(s, sr) && LayerB(s, sr)[c] == s.strength[d]
  {
    SupportIs(s);
    SupportOfOneConclusion(facts, rules, c);
    var v := InputOf(s, SupportOf(s), sr);
    hide LayerB, SupportOf, LeastFixpoint;
    assert d in s.graph.Rules();
    forall e | v.Grounds(e, c)
      ensures v.StrengthOf(e) <= v.StrengthOf(d) && FromOneFact(v, e)
    {
      assert e in rules && e.body <= facts;
      var a :| a in facts && e.body == {a};
      assert a in v.supported && v.BaseOf(a) == 1.0;
    }
    assert v.InRange();
    BestOfFullFacts(v, LayerB(s, sr), c, d);
  }

  /** The two layers of a subgraph: what it supports, and how one node scores. */
  ghost predicate Scores(s: ActiveSubgraph, sr: Semiring, supported: set<NodeId>, n: NodeId, confidence: real) {
    && InputOf(s, {}, sr).InRange() && SupportOf(s) == supported
    && n in LayerB(s, sr) && LayerB(s, sr)[n] == confidence
  }

  lemma ScoreOfTwo(s: ActiveSubgraph, sr: Semiring, c: NodeId, facts: set<NodeId>, d: Derivation, x: NodeId,
                   e: Derivation, y: NodeId)
    requires InputOf(s, {}, sr).InRange() && OnlyRulesFor(s, c, facts, {d, e})
    requires x in facts && d.body == {x} && d in s.strength && e in s.strength
    requires y in e.body && (y in facts ==> e.body == {y} && s.strength[e] <= s.strength[d])
    ensures Scores(s, sr, facts + {c}, c, s.strength[d])
  {
    hide OnlyRulesFor, LayerB, SupportOf;
    ScoreOf(s, sr, c, facts, {d, e}, d);
  }

  lemma KeptFacts(nodes: seq<NodeRow>, baseIds: set<NodeId>, rows: seq<DerivedRow>, gone: set<NodeId>, c: NodeId)
    requires Known(nodes, baseIds + {c}) && c !in gone
    ensures var s := Assembled(Keep(nodes, gone), baseIds, rows, None);
            && s.graph.baseFacts == baseIds - gone && Active(Keep(nodes, gone), None, c)
            && forall n :: n in baseIds - gone ==> n in s.baseConfidence && s.baseConfidence[n] == 1.0
  {
    hide Keep;
    FactsOfAssembled(Keep(nodes, gone), baseIds, rows, None);
    RowOfKept(nodes, gone, c);
    forall n
      ensures n in ActiveAmong(Keep(nodes, gone), None, baseIds) <==> n in baseIds - gone
      ensures n in baseIds - gone ==> RowOf(Keep(nodes, gone), n) == RowOf(nodes, n)
    {
      RowOfKept(nodes, gone, n);
    }
  }

  // ---------------------------------------------------------------- a confidence raised, and one lowered

  lemma KeptFactsAre(nodes: seq<NodeRow>, baseIds: set<NodeId>, rows: seq<DerivedRow>, b: NodeId, facts: set<NodeId>,
                     c: NodeId, d: Derivation, e: Derivation)
    requires Known(nodes, baseIds + {c}) && c != b && facts == baseIds - {b} && c !in facts
    requires var s := Assembled(Keep(nodes, {b}), baseIds, rows, None);
             s.graph.Rules() == {d, e} && d in s.strength && e in s.strength
    requires d.conclusion == e.conclusion == c && c !in d.body && c !in e.body
    ensures OnlyRulesFor(Assembled(Keep(nodes, {b}), baseIds, rows, None), c, facts, {d, e})
  {
    hide Assembled;
    KeptFacts(nodes, baseIds, rows, {b}, c);
  }

  /** The whole pass over two rules for `c`, the better of which rests on one fact. */
  lemma TwoRuleScore(nodes: seq<NodeRow>, base: set<NodeId>, rows: seq<DerivedRow>, b: NodeId, facts: set<NodeId>,
                     c: NodeId, g: GroupId, h: GroupId, d: Derivation, x: NodeId, e: Derivation, y: NodeId, p: real,
                     q: real, sr: Semiring)
    requires Known(nodes, base + {c}) && RowsInRange(Keep(nodes, {b}), rows) && Lawful(sr)
    requires c != b && facts == base - {b} && c !in facts && TwoWriters(rows, c, g, h, d, e, p, q)
    requires c !in d.body && c !in e.body && x in facts && d.body == {x}
    requires y in e.body && (y in facts ==> e.body == {y} && q <= p)
    ensures var s := Assembled(Keep(nodes, {b}), base, rows, None);
            Scores(s, sr, facts + {c}, c, p)
  {
    assert d.conclusion == e.conclusion == c;
    hide *;
    AssembledInRange(Keep(nodes, {b}), base, rows, None, {}, sr);
    KeptFacts(nodes, base, rows, {b}, c);
    TwoWritersAssembled(Keep(nodes, {b}), base, rows, None, c, g, h, d, e, p, q);
    KeptFactsAre(nodes, base, rows, b, facts, c, d, e);
    ScoreOfTwo(Assembled(Keep(nodes, {b}), base, rows, None), sr, c, facts, d, x, e, y);
  }

  function RaisingRows(a: NodeId, b: NodeId, x: NodeId, c: NodeId, g: GroupId, h: GroupId): seq<DerivedRow> {
    [DerivedRow(c, a, Some(g), 1.0), DerivedRow(c, b, Some(g), 1.0), DerivedRow(c, x, Some(h), 0.3)]
  }

  lemma RaisingGroups(a: NodeId, b: NodeId, x: NodeId, c: NodeId, g: GroupId, h: GroupId)
    requires a != b && a != x && b != x && c !in {a, b, x} && g != h
    ensures var rows := RaisingRows(a, b, x, c, g, h);
            && TwoWriters(rows, c, h, g, Derivation(c, {x}), Derivation(c, {a, b}), 0.3, 1.0)
            && TwoWriters(CurrentRows(rows, {b}), c, g, h, Derivation(c, {a}), Derivation(c, {x}), 1.0, 0.3)
  {
    var rows := RaisingRows(a, b, x, c, g, h);
    var current := CurrentRows(rows, {b});
    var r, r', t := rows[0], rows[1], rows[2];
    assert forall row :: row in rows <==> row == r || row == r' || row == t;
    assert KeyOf(r) == KeyOf(r') == Grouped(g) && KeyOf(t) == Grouped(h);
    assert forall row :: row in current <==> row == r || row == t;
    assert r.conclusion == r'.conclusion == t.conclusion == c;
    assert r.antecedent == a && r'.antecedent == b && t.antecedent == x;
    assert r.strength == r'.strength == 1.0 && t.strength == 0.3;
    DifferentBodies(c, a, b, x);
    hide *;
    TwoRowGroup(rows, r, r');
    OneRowGroup(rows, t);
    OneRowGroup(current, r);
    OneRowGroup(current, t);
    TwoWritersAre(rows, c, h, g, Derivation(c, {x}), Derivation(c, {a, b}), 0.3, 1.0);
    TwoWritersAre(current, c, g, h, Derivation(c, {a}), Derivation(c, {x}), 1.0, 0.3);
  }

  lemma DifferentBodies(c: NodeId, a: NodeId, b: NodeId, x: NodeId)
    requires a != b && a != x && b != x
    ensures Derivation(c, {a, b}) != Derivation(c, {x}) && Derivation(c, {a}) != Derivation(c, {x})
    ensures Derivation(c, {a}) != Derivation(c, {a, b})
    ensures Derivation(c, {a}).conclusion == Derivation(c, {a, b}).conclusion == Derivation(c, {x}).conclusion == c
    ensures b in Derivation(c, {a, b}).body && Derivation(c, {a}).body == {a} && Derivation(c, {x}).body == {x}
    ensures forall e :: e in Derivation(c, {a, b}).body <==> e == a || e == b
  {
    var both, one, other := Derivation(c, {a, b}), Derivation(c, {a}), Derivation(c, {x});
    assert b in both.body && b !in one.body && b !in other.body && a in one.body && a !in other.body;
  }

  lemma TwoWritersAre(rows: seq<DerivedRow>, c: NodeId, g: GroupId, h: GroupId, d: Derivation, e: Derivation, p: real,
                      q: real)
    requires d != e && d.conclusion == e.conclusion == c
    requires forall row :: row in rows ==> KeyOf(row) == Grouped(g) || KeyOf(row) == Grouped(h)
    requires HasKey(rows, Grouped(g)) && RuleOf(rows, Grouped(g)) == d && StrengthOfGroup(rows, Grouped(g)) == p
    requires HasKey(rows, Grouped(h)) && RuleOf(rows, Grouped(h)) == e && StrengthOfGroup(rows, Grouped(h)) == q
    ensures TwoWriters(rows, c, g, h, d, e, p, q)
  {
    hide HasKey, RuleOf, StrengthOfGroup;
  }

  /** Group `g` asks for `a` and `b`, group `h` only for `x`, and `b` is retracted. The support is
      the contract's, but the read lets `c` stand on `a` alone with the full strength of `g`. */
  lemma ReadRaisesConfidence(nodes: seq<NodeRow>, a: NodeId, b: NodeId, x: NodeId, c: NodeId, g: GroupId, h: GroupId,
                             sr: Semiring)
    requires a != b && a != x && b != x && c !in {a, b, x} && g != h && Lawful(sr)
    requires Known(nodes, {a, b, x} + {c}) && RowsInRange(nodes, [])
    ensures var rows := RaisingRows(a, b, x, c, g, h);
            var asAsked := Assembled(Keep(nodes, {b}), {a, b, x}, rows, None);
            var asRead := Assembled(Keep(nodes, {b}), {a, b, x}, CurrentRows(rows, {b}), None);
            Scores(asAsked, sr, {a, x} + {c}, c, 0.3) && Scores(asRead, sr, {a, x} + {c}, c, 1.0)
  {
    var rows, base, facts := RaisingRows(a, b, x, c, g, h), {a, b, x}, {a, x};
    var current := CurrentRows(rows, {b});
    var both, one, other := Derivation(c, {a, b}), Derivation(c, {a}), Derivation(c, {x});
    RaisingInRange(nodes, a, b, x, c, g, h);
    hide *;
    assert facts == base - {b};
    RaisingGroups(a, b, x, c, g, h);
    DifferentBodies(c, a, b, x);
    ReadInRange(nodes, rows, {b});
    TwoRuleScore(nodes, base, rows, b, facts, c, h, g, other, x, both, b, 0.3, 1.0, sr);
    TwoRuleScore(nodes, base, current, b, facts, c, g, h, one, a, other, x, 1.0, 0.3, sr);
  }

  lemma RaisingInRange(nodes: seq<NodeRow>, a: NodeId, b: NodeId, x: NodeId, c: NodeId, g: GroupId, h: GroupId)
    requires RowsInRange(nodes, [])
    ensures RowsInRange(nodes, RaisingRows(a, b, x, c, g, h))
  {
  }

  function LoweringRows(a: NodeId, b: NodeId, c: NodeId, g: GroupId, h: GroupId): seq<DerivedRow> {
    TwoGroups(c, a, g, h, 0.9, 0.1) + [DerivedRow(c, b, Some(h), 0.1)]
  }

  lemma LoweringGroups(a: NodeId, b: NodeId, c: NodeId, g: GroupId, h: GroupId)
    requires a != b && c !in {a, b} && g != h
    ensures var rows := LoweringRows(a, b, c, g, h);
            && TwoWriters(rows, c, g, h, Derivation(c, {a}), Derivation(c, {a, b}), 0.9, 0.1)
            && CurrentRows(rows, {b}) == TwoGroups(c, a, g, h, 0.9, 0.1)
  {
    var rows := LoweringRows(a, b, c, g, h);
    LoweringRead(a, b, c, g, h);
    var t, r, r' := rows[0], rows[1], rows[2];
    assert forall row :: row in rows <==> row == t || row == r || row == r';
    assert KeyOf(t) == Grouped(g) && KeyOf(r) == KeyOf(r') == Grouped(h);
    assert r.conclusion == r'.conclusion == t.conclusion == c;
    assert r.antecedent == a && r'.antecedent == b && t.antecedent == a;
    assert r.strength == r'.strength == 0.1 && t.strength == 0.9;
    DifferentBodies(c, a, b, c);
    hide *;
    TwoRowGroup(rows, r, r');
    OneRowGroup(rows, t);
    TwoWritersAre(rows, c, g, h, Derivation(c, {a}), Derivation(c, {a, b}), 0.9, 0.1);
  }

  lemma CurrentRowsOfOneMore(rows: seq<DerivedRow>, row: DerivedRow, gone: set<NodeId>)
    ensures CurrentRows(rows + [row], gone)
         == CurrentRows(rows, gone) + if row.conclusion in gone || row.antecedent in gone then [] else [row]
  {
    assert (rows + [row])[..|rows|] == rows;
  }

  lemma LoweringRead(a: NodeId, b: NodeId, c: NodeId, g: GroupId, h: GroupId)
    requires a != b && c != b
    ensures CurrentRows(LoweringRows(a, b, c, g, h), {b}) == TwoGroups(c, a, g, h, 0.9, 0.1)
  {
    var t, r, r' := DerivedRow(c, a, Some(g), 0.9), DerivedRow(c, a, Some(h), 0.1), DerivedRow(c, b, Some(h), 0.1);
    assert LoweringRows(a, b, c, g, h) == [] + [t] + [r] + [r'] && TwoGroups(c, a, g, h, 0.9, 0.1) == [] + [t] + [r];
    assert CurrentRows([], {b}) == [];
    hide CurrentRows;
    CurrentRowsOfOneMore([], t, {b});
    CurrentRowsOfOneMore([] + [t], r, {b});
    CurrentRowsOfOneMore([] + [t] + [r], r', {b});
  }

  /** Group `g` asks for `a`, group `h` weakly for `a` and `b`, and `b` is retracted. The read shrinks
      `h` to the rule of `g`, and the later strength replaces the better one. */
  lemma ReadLowersConfidence(nodes: seq<NodeRow>, a: NodeId, b: NodeId, c: NodeId, g: GroupId, h: GroupId, sr: Semiring)
    requires a != b && c !in {a, b} && g != h && Lawful(sr)
    requires Known(nodes, {a, b} + {c}) && RowsInRange(nodes, [])
    ensures var rows := LoweringRows(a, b, c, g, h);
            var asAsked := Assembled(Keep(nodes, {b}), {a, b}, rows, None);
            var asRead := Assembled(Keep(nodes, {b}), {a, b}, CurrentRows(rows, {b}), None);
            Scores(asAsked, sr, {a} + {c}, c, 0.9) && Scores(asRead, sr, {a} + {c}, c, 0.1)
  {
    var rows, base, facts := LoweringRows(a, b, c, g, h), {a, b}, {a};
    var current := CurrentRows(rows, {b});
    var both, one := Derivation(c, {a, b}), Derivation(c, {a});
    LoweringInRange(nodes, a, b, c, g, h);
    hide *;
    assert facts == base - {b};
    LoweringGroups(a, b, c, g, h);
    DifferentBodies(c, a, b, c);
    ReadInRange(nodes, rows, {b});
    TwoRuleScore(nodes, base, rows, b, facts, c, g, h, one, a, both, b, 0.9, 0.1, sr);
    var asRead := Assembled(Keep(nodes, {b}), base, current, None);
    AssembledInRange(Keep(nodes, {b}), base, current, None, {}, sr);
    KeptFacts(nodes, base, current, {b}, c);
    LastGroupWins(Keep(nodes, {b}), base, None, c, a, g, h, 0.9, 0.1);
    OneRule(asRead, one);
    KeptFactsAre(nodes, base, current, b, facts, c, one, one);
    ScoreOfTwo(asRead, sr, c, facts, one, a, one, a);
  }

  lemma LoweringInRange(nodes: seq<NodeRow>, a: NodeId, b: NodeId, c: NodeId, g: GroupId, h: GroupId)
    requires RowsInRange(nodes, [])
    ensures RowsInRange(nodes, LoweringRows(a, b, c, g, h))
  {
  }

  lemma OneRule(s: ActiveSubgraph, d: Derivation)
    requires forall e :: e in s.graph.derivations <==> e == d
    ensures s.graph.Rules() == {d, d}
  {
  }
}
