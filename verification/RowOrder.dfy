/**
 The order of the DERIVED_FROM rows does not matter to src/iknos/core/derivation_adapter.py as
 long as the rows of a group agree on an active conclusion and groups that write one active rule
 agree on its strength: then the assembled subgraph, its sorted rule list included, is the same
 for every order (`AssemblyIgnoresRowOrder`). `OrderCanDecideTheStrength` is an input where two
 orders part; StableAssembly.dfy shows that the condition is exact.
 */
module RowOrder {
  import opened Sets
  import opened TruthMaintenance
  import opened DerivationOrder
  import opened DerivationAdapter

  // ---------------------------------------------------------------- row order

  /** The write contract of the rows: one group, one conclusion. */
  ghost predicate OneConclusionPerGroup(rows: seq<DerivedRow>) {
    forall i, j :: 0 <= i < |rows| && 0 <= j < |rows| && KeyOf(rows[i]) == KeyOf(rows[j])
      ==> rows[i].conclusion == rows[j].conclusion
  }

  ghost predicate SameRows(rows: seq<DerivedRow>, rows': seq<DerivedRow>) {
    forall row :: row in rows <==> row in rows'
  }

  lemma HasKeyOfRow(rows: seq<DerivedRow>, key: GroupKey)
    ensures HasKey(rows, key) <==> exists row :: row in rows && KeyOf(row) == key
  {
    if row :| row in rows && KeyOf(row) == key {
      var i :| 0 <= i < |rows| && rows[i] == row;
      assert KeyOf(rows[i]) == key;
    }
  }

  lemma {:induction false} ConclusionOfRow(rows: seq<DerivedRow>, key: GroupKey)
    requires HasKey(rows, key)
    ensures exists row :: row in rows && KeyOf(row) == key && row.conclusion == ConclusionOf(rows, key)
  {
    var last := rows[|rows| - 1];
    if KeyOf(last) != key {
      var front := rows[..|rows| - 1];
      var i :| 0 <= i < |rows| && KeyOf(rows[i]) == key;
      assert front[i] == rows[i];
      ConclusionOfRow(front, key);
    } else {
      assert last in rows;
    }
  }

  lemma BodyOfRows(rows: seq<DerivedRow>, key: GroupKey, a: NodeId)
    ensures a in BodyOf(rows, key) <==> exists row :: row in rows && KeyOf(row) == key && row.antecedent == a
  {
    if row :| row in rows && KeyOf(row) == key && row.antecedent == a {
      var i :| 0 <= i < |rows| && rows[i] == row;
      assert KeyOf(rows[i]) == key && rows[i].antecedent == a;
    }
  }

  lemma {:induction false} StrengthsOfRows(rows: seq<DerivedRow>, key: GroupKey, x: real)
    ensures x in StrengthsOf(rows, key) <==> exists row :: row in rows && KeyOf(row) == key && row.strength == x
  {
    if rows != [] {
      var front, last := rows[..|rows| - 1], rows[|rows| - 1];
      StrengthsOfRows(front, key, x);
      assert rows == front + [last];
    }
  }

  /** The two lists hold the same rows for one key. */
  ghost predicate SameGroup(rows: seq<DerivedRow>, rows': seq<DerivedRow>, key: GroupKey) {
    forall row {:trigger row in rows} {:trigger row in rows'} :: KeyOf(row) == key ==> (row in rows <==> row in rows')
  }

  ghost predicate AgreesOn(rows: seq<DerivedRow>, key: GroupKey) {
    forall r, r' :: r in rows && r' in rows && KeyOf(r) == key && KeyOf(r') == key ==> r.conclusion == r'.conclusion
  }

  /** Body and strength of a group do not depend on the order of its rows, nor on the rows of
      other groups. Nor does the conclusion, if its rows agree on one. */
  lemma GroupIgnoresOrder(rows: seq<DerivedRow>, rows': seq<DerivedRow>, key: GroupKey)
    requires SameGroup(rows, rows', key)
    ensures HasKey(rows', key) <==> HasKey(rows, key)
    ensures BodyOf(rows', key) == BodyOf(rows, key)
    ensures HasKey(rows, key) ==> StrengthOfGroup(rows', key) == StrengthOfGroup(rows, key)
    ensures HasKey(rows, key) && AgreesOn(rows, key) ==> RuleOf(rows', key) == RuleOf(rows, key)
  {
    hide BodyOf, StrengthOfGroup, ConclusionOf, HasKey;
    HasKeyOfRow(rows, key);
    HasKeyOfRow(rows', key);
    SameBody(rows, rows', key);
    if HasKey(rows, key) {
      SameLowest(rows, rows', key);
      if AgreesOn(rows, key) {
        SameConclusion(rows, rows', key);
      }
    }
  }

  lemma SameConclusion(rows: seq<DerivedRow>, rows': seq<DerivedRow>, key: GroupKey)
    requires SameGroup(rows, rows', key) && AgreesOn(rows, key) && HasKey(rows, key) && HasKey(rows', key)
    ensures ConclusionOf(rows', key) == ConclusionOf(rows, key)
  {
    ConclusionOfRow(rows, key);
    ConclusionOfRow(rows', key);
    var r :| r in rows && KeyOf(r) == key && r.conclusion == ConclusionOf(rows, key);
    var r' :| r' in rows' && KeyOf(r') == key && r'.conclusion == ConclusionOf(rows', key);
    assert r' in rows;
  }

  lemma SameBody(rows: seq<DerivedRow>, rows': seq<DerivedRow>, key: GroupKey)
    requires SameGroup(rows, rows', key)
    ensures BodyOf(rows', key) == BodyOf(rows, key)
  {
    forall a
      ensures a in BodyOf(rows', key) <==> a in BodyOf(rows, key)
    {
      BodyOfRows(rows, key, a);
      BodyOfRows(rows', key, a);
    }
  }

  lemma SameLowest(rows: seq<DerivedRow>, rows': seq<DerivedRow>, key: GroupKey)
    requires SameGroup(rows, rows', key) && HasKey(rows, key) && HasKey(rows', key)
    ensures StrengthOfGroup(rows', key) == StrengthOfGroup(rows, key)
  {
    StrengthsExist(rows, key);
    StrengthsExist(rows', key);
    forall x
      ensures x in StrengthsOf(rows', key) <==> x in StrengthsOf(rows, key)
    {
      StrengthsOfRows(rows, key, x);
      StrengthsOfRows(rows', key, x);
    }
    LowestIsOne(StrengthsOf(rows, key));
    LowestIsOne(StrengthsOf(rows', key));
  }

  lemma SameRowsSameGroup(rows: seq<DerivedRow>, rows': seq<DerivedRow>, key: GroupKey)
    requires SameRows(rows, rows') && OneConclusionPerGroup(rows)
    ensures SameGroup(rows, rows', key) && AgreesOn(rows, key)
  {
    forall r, r' | r in rows && r' in rows && KeyOf(r) == key && KeyOf(r') == key
      ensures r.conclusion == r'.conclusion
    {
      var i :| 0 <= i < |rows| && rows[i] == r;
      var j :| 0 <= j < |rows| && rows[j] == r';
      assert KeyOf(rows[i]) == KeyOf(rows[j]);
    }
  }

  /** What the assembly keeps of each group: its rule if its conclusion is active. */
  ghost predicate WritesRule(nodes: seq<NodeRow>, boxes: Option<set<BoxId>>, rows: seq<DerivedRow>, key: GroupKey,
                             d: Derivation)
  {
    HasKey(rows, key) && RuleOf(rows, key) == d && Active(nodes, boxes, d.conclusion)
  }

  /** Groups that write down the same active rule give it the same strength. */
  ghost predicate WritersAgree(nodes: seq<NodeRow>, boxes: Option<set<BoxId>>, rows: seq<DerivedRow>) {
    forall k, k', d :: WritesRule(nodes, boxes, rows, k, d) && WritesRule(nodes, boxes, rows, k', d)
      ==> StrengthOfGroup(rows, k) == StrengthOfGroup(rows, k')
  }

  /** Rows of one group name one conclusion, unless no conclusion they name is active. */
  ghost predicate ActiveConclusionsAgree(nodes: seq<NodeRow>, boxes: Option<set<BoxId>>, rows: seq<DerivedRow>) {
    forall r, r' :: r in rows && r' in rows && KeyOf(r) == KeyOf(r') && Active(nodes, boxes, r.conclusion)
      ==> r'.conclusion == r.conclusion
  }

  lemma WrittenByOneGroup(nodes: seq<NodeRow>, boxes: Option<set<BoxId>>, rows: seq<DerivedRow>, key: GroupKey)
    requires HasKey(rows, key)
    ensures forall d :: WritesRule(nodes, boxes, rows, key, d)
                   <==> d == RuleOf(rows, key) && Active(nodes, boxes, ConclusionOf(rows, key))
  {
    hide Active, BodyOf, ConclusionOf, HasKey;
  }

  // ---------------------------------------------------------------- one more row

  lemma KeysOfOneMore(rows: seq<DerivedRow>, row: DerivedRow)
    ensures Keys(rows + [row]) == if KeyOf(row) in Keys(rows) then Keys(rows) else Keys(rows) + [KeyOf(row)]
  {
    assert (rows + [row])[..|rows|] == rows;
  }

  lemma ConclusionOfOneMore(rows: seq<DerivedRow>, row: DerivedRow, key: GroupKey)
    requires KeyOf(row) == key || HasKey(rows, key)
    ensures HasKey(rows + [row], key)
    ensures ConclusionOf(rows + [row], key) == if KeyOf(row) == key then row.conclusion else ConclusionOf(rows, key)
  {
    HasKeyOfRow(rows, key);
    HasKeyOfRow(rows + [row], key);
    assert (rows + [row])[..|rows|] == rows;
    if KeyOf(row) == key {
      assert row in rows + [row];
    } else {
      var r :| r in rows && KeyOf(r) == key;
      assert r in rows + [row];
    }
  }

  // ---------------------------------------------------------------- what the groups add up to

  /** Those of the first `k` groups that write down `d`. */
  ghost function WritersOf(nodes: seq<NodeRow>, boxes: Option<set<BoxId>>, rows: seq<DerivedRow>, k: nat,
                           d: Derivation): set<GroupKey>
    requires k <= |Keys(rows)|
  {
    set key | key in Keys(rows)[..k] && WritesRule(nodes, boxes, rows, key, d)
  }

  lemma OneMoreWriter(nodes: seq<NodeRow>, boxes: Option<set<BoxId>>, rows: seq<DerivedRow>, k: nat, d: Derivation)
    requires k < |Keys(rows)|
    ensures var key := Keys(rows)[k];
            key !in WritersOf(nodes, boxes, rows, k, d)
            && WritersOf(nodes, boxes, rows, k + 1, d)
            == WritersOf(nodes, boxes, rows, k, d) + if WritesRule(nodes, boxes, rows, key, d) then {key} else {}
  {
    KeysAreTheGroups(rows);
    hide Keys, WritesRule, HasKey;
    TakeMore(Keys(rows), k);
  }

  lemma AllWriters(nodes: seq<NodeRow>, boxes: Option<set<BoxId>>, rows: seq<DerivedRow>, d: Derivation, key: GroupKey)
    ensures key in WritersOf(nodes, boxes, rows, |Keys(rows)|, d) <==> WritesRule(nodes, boxes, rows, key, d)
  {
    KeysAreTheGroups(rows);
    hide Keys, RuleOf, HasKey, Active;
    assert Keys(rows)[..|Keys(rows)|] == Keys(rows);
  }

  /** A rule is assembled once for every group that writes it. */
  lemma {:induction false} RuleOccurs(nodes: seq<NodeRow>, boxes: Option<set<BoxId>>, rows: seq<DerivedRow>, k: nat,
                                      d: Derivation)
    requires k <= |Keys(rows)|
    ensures multiset(RulesUpTo(nodes, boxes, rows, k))[d] == |WritersOf(nodes, boxes, rows, k, d)|
  {
    if k > 0 {
      RuleOccurs(nodes, boxes, rows, k - 1, d);
      OneMoreGroup(nodes, boxes, rows, k - 1);
      OneMoreWriter(nodes, boxes, rows, k - 1, d);
      WrittenByOneGroup(nodes, boxes, rows, Keys(rows)[k - 1]);
      hide *;
    }
  }

  /** The rule has the strength of one of its writers. */
  lemma {:induction false} StrengthOfSomeWriter(nodes: seq<NodeRow>, boxes: Option<set<BoxId>>, rows: seq<DerivedRow>,
                                                k: nat, d: Derivation) returns (key: GroupKey)
    requires k <= |Keys(rows)| && d in StrengthsUpTo(nodes, boxes, rows, k)
    ensures WritesRule(nodes, boxes, rows, key, d)
    ensures StrengthsUpTo(nodes, boxes, rows, k)[d] == StrengthOfGroup(rows, key)
  {
    key := Keys(rows)[k - 1];
    OneMoreGroup(nodes, boxes, rows, k - 1);
    WrittenByOneGroup(nodes, boxes, rows, key);
    hide HasKey, RuleOf, Active, StrengthOfGroup, StrengthsUpTo, RulesUpTo, Keys, ConclusionOf, WritesRule;
    if !WritesRule(nodes, boxes, rows, key, d) {
      key := StrengthOfSomeWriter(nodes, boxes, rows, k - 1, d);
    }
  }

  /** The rule has the strength its writers agree on. */
  lemma {:induction false} StrengthOfWriters(nodes: seq<NodeRow>, boxes: Option<set<BoxId>>, rows: seq<DerivedRow>,
                                             k: nat, d: Derivation, key: GroupKey)
    requires k <= |Keys(rows)| && WritersAgree(nodes, boxes, rows) && key in WritersOf(nodes, boxes, rows, k, d)
    ensures HasKey(rows, key) && d in StrengthsUpTo(nodes, boxes, rows, k)
    ensures StrengthsUpTo(nodes, boxes, rows, k)[d] == StrengthOfGroup(rows, key)
  {
    var last := Keys(rows)[k - 1];
    OneMoreGroup(nodes, boxes, rows, k - 1);
    OneMoreWriter(nodes, boxes, rows, k - 1, d);
    WrittenByOneGroup(nodes, boxes, rows, last);
    assert WritesRule(nodes, boxes, rows, key, d);
    hide HasKey, RuleOf, Active, StrengthOfGroup, StrengthsUpTo, RulesUpTo, Keys, ConclusionOf, WritersOf;
    if !WritesRule(nodes, boxes, rows, last, d) {
      StrengthOfWriters(nodes, boxes, rows, k - 1, d, key);
    }
  }

  /** The assembled rules are the rules the groups write. */
  lemma RuleIsWritten(nodes: seq<NodeRow>, baseIds: set<NodeId>, rows: seq<DerivedRow>, boxes: Option<set<BoxId>>,
                      d: Derivation)
    ensures d in Assembled(nodes, baseIds, rows, boxes).graph.derivations
       <==> exists key :: WritesRule(nodes, boxes, rows, key, d)
    ensures d in Assembled(nodes, baseIds, rows, boxes).graph.Rules()
       <==> exists key :: WritesRule(nodes, boxes, rows, key, d)
  {
    var n := |Keys(rows)|;
    RuleOccurs(nodes, boxes, rows, n, d);
    RulesOfAssembled(nodes, baseIds, rows, boxes);
    hide WritersOf, WritesRule, StrengthsUpTo, RulesUpTo, Keys, SortDerivations, ActiveAmong, BaseConfidences;
    assert d in RulesUpTo(nodes, boxes, rows, n) <==> WritersOf(nodes, boxes, rows, n, d) != {};
    if key :| key in WritersOf(nodes, boxes, rows, n, d) {
      AllWriters(nodes, boxes, rows, d, key);
    }
    if key :| WritesRule(nodes, boxes, rows, key, d) {
      AllWriters(nodes, boxes, rows, d, key);
    }
  }

  /** The assembly, group by group. */
  lemma AssembledRules(nodes: seq<NodeRow>, boxes: Option<set<BoxId>>, rows: seq<DerivedRow>, d: Derivation)
    requires WritersAgree(nodes, boxes, rows)
    ensures d in RulesUpTo(nodes, boxes, rows, |Keys(rows)|)
       <==> exists key :: WritesRule(nodes, boxes, rows, key, d)
    ensures forall key :: WritesRule(nodes, boxes, rows, key, d) ==>
              d in StrengthsUpTo(nodes, boxes, rows, |Keys(rows)|)
              && StrengthsUpTo(nodes, boxes, rows, |Keys(rows)|)[d] == StrengthOfGroup(rows, key)
  {
    var n := |Keys(rows)|;
    RuleOccurs(nodes, boxes, rows, n, d);
    hide WritersOf, WritesRule, HasKey, StrengthOfGroup, StrengthsUpTo, RulesUpTo, Keys, WritersAgree;
    assert d in RulesUpTo(nodes, boxes, rows, n) <==> WritersOf(nodes, boxes, rows, n, d) != {};
    if key :| key in WritersOf(nodes, boxes, rows, n, d) {
      AllWriters(nodes, boxes, rows, d, key);
    }
    forall key | WritesRule(nodes, boxes, rows, key, d)
      ensures key in WritersOf(nodes, boxes, rows, n, d) && HasKey(rows, key)
      ensures d in StrengthsUpTo(nodes, boxes, rows, n)
      ensures StrengthsUpTo(nodes, boxes, rows, n)[d] == StrengthOfGroup(rows, key)
    {
      AllWriters(nodes, boxes, rows, d, key);
      StrengthOfWriters(nodes, boxes, rows, n, d, key);
    }
  }

  // ---------------------------------------------------------------- when the order does not show

  lemma NamedConclusion(nodes: seq<NodeRow>, boxes: Option<set<BoxId>>, rows: seq<DerivedRow>, key: GroupKey,
                        d: Derivation)
    requires ActiveConclusionsAgree(nodes, boxes, rows) && WritesRule(nodes, boxes, rows, key, d)
    ensures AgreesOn(rows, key)
  {
    ConclusionOfRow(rows, key);
    hide HasKey, ConclusionOf, BodyOf, Active, KeyOf;
  }

  lemma OrderKeepsWrites(nodes: seq<NodeRow>, boxes: Option<set<BoxId>>, rows: seq<DerivedRow>,
                         rows': seq<DerivedRow>, key: GroupKey, d: Derivation)
    requires SameRows(rows, rows') && ActiveConclusionsAgree(nodes, boxes, rows)
    ensures WritesRule(nodes, boxes, rows', key, d) <==> WritesRule(nodes, boxes, rows, key, d)
    ensures WritesRule(nodes, boxes, rows, key, d) ==> StrengthOfGroup(rows', key) == StrengthOfGroup(rows, key)
  {
    hide HasKey, RuleOf, Active, StrengthOfGroup, KeyOf;
    GroupIgnoresOrder(rows, rows', key);
    GroupIgnoresOrder(rows', rows, key);
    assert ActiveConclusionsAgree(nodes, boxes, rows');
    if WritesRule(nodes, boxes, rows, key, d) {
      NamedConclusion(nodes, boxes, rows, key, d);
    } else if WritesRule(nodes, boxes, rows', key, d) {
      NamedConclusion(nodes, boxes, rows', key, d);
    }
  }

  /** If groups agree on active conclusions and on the strength of what they write alike, the
      assembled subgraph, sorted rule list included, is the same for every order of the rows. */
  lemma AssemblyIgnoresRowOrder(nodes: seq<NodeRow>, baseIds: set<NodeId>, rows: seq<DerivedRow>,
                                rows': seq<DerivedRow>, boxes: Option<set<BoxId>>)
    requires SameRows(rows, rows') && ActiveConclusionsAgree(nodes, boxes, rows) && WritersAgree(nodes, boxes, rows)
    ensures Assembled(nodes, baseIds, rows', boxes) == Assembled(nodes, baseIds, rows, boxes)
  {
    hide RulesUpTo, StrengthsUpTo, WritesRule, StrengthOfGroup, Keys, Sorted, SortDerivations, ActiveAmong,
      BaseConfidences, Active, SameRows, ActiveConclusionsAgree, WritersAgree;
    var n, n' := |Keys(rows)|, |Keys(rows')|;
    StrengthMapFacts(nodes, boxes, rows, n);
    StrengthMapFacts(nodes, boxes, rows', n');
    forall d
      ensures multiset(RulesUpTo(nodes, boxes, rows', n'))[d] == multiset(RulesUpTo(nodes, boxes, rows, n))[d]
      ensures d in StrengthsUpTo(nodes, boxes, rows', n') <==> d in StrengthsUpTo(nodes, boxes, rows, n)
      ensures d in StrengthsUpTo(nodes, boxes, rows, n) ==>
                StrengthsUpTo(nodes, boxes, rows', n')[d] == StrengthsUpTo(nodes, boxes, rows, n)[d]
    {
      SameRuleWritten(nodes, boxes, rows, rows', d);
    }
    assert multiset(RulesUpTo(nodes, boxes, rows', n')) == multiset(RulesUpTo(nodes, boxes, rows, n));
    SortedIsUnique(SortDerivations(RulesUpTo(nodes, boxes, rows', n')),
                   SortDerivations(RulesUpTo(nodes, boxes, rows, n)));
    assert StrengthsUpTo(nodes, boxes, rows', n') == StrengthsUpTo(nodes, boxes, rows, n);
  }

  lemma SameRuleWritten(nodes: seq<NodeRow>, boxes: Option<set<BoxId>>, rows: seq<DerivedRow>,
                        rows': seq<DerivedRow>, d: Derivation)
    requires SameRows(rows, rows') && ActiveConclusionsAgree(nodes, boxes, rows) && WritersAgree(nodes, boxes, rows)
    ensures multiset(RulesUpTo(nodes, boxes, rows', |Keys(rows')|))[d]
         == multiset(RulesUpTo(nodes, boxes, rows, |Keys(rows)|))[d]
    ensures d in RulesUpTo(nodes, boxes, rows, |Keys(rows)|) ==>
            && d in StrengthsUpTo(nodes, boxes, rows, |Keys(rows)|)
            && d in StrengthsUpTo(nodes, boxes, rows', |Keys(rows')|)
            && StrengthsUpTo(nodes, boxes, rows', |Keys(rows')|)[d] == StrengthsUpTo(nodes, boxes, rows, |Keys(rows)|)[d]
  {
    var n, n' := |Keys(rows)|, |Keys(rows')|;
    forall key, e
      ensures WritesRule(nodes, boxes, rows', key, e) <==> WritesRule(nodes, boxes, rows, key, e)
      ensures WritesRule(nodes, boxes, rows, key, e) ==> StrengthOfGroup(rows', key) == StrengthOfGroup(rows, key)
    {
      hide *;
      OrderKeepsWrites(nodes, boxes, rows, rows', key, e);
    }
    hide RulesUpTo, StrengthsUpTo, HasKey, RuleOf, Active, StrengthOfGroup, Keys, WritersOf;
    assert WritersAgree(nodes, boxes, rows');
    RuleOccurs(nodes, boxes, rows, n, d);
    RuleOccurs(nodes, boxes, rows', n', d);
    forall key
      ensures key in WritersOf(nodes, boxes, rows, n, d) <==> key in WritersOf(nodes, boxes, rows', n', d)
    {
      AllWriters(nodes, boxes, rows, d, key);
      AllWriters(nodes, boxes, rows', d, key);
    }
    assert WritersOf(nodes, boxes, rows, n, d) == WritersOf(nodes, boxes, rows', n', d);
    hide WritersAgree, WritesRule;
    AssembledRules(nodes, boxes, rows, d);
    AssembledRules(nodes, boxes, rows', d);
  }

  // ---------------------------------------------------------------- when the order shows

  /** Two groups write one rule: the assembly keeps the rule, with the strength of the later group. */
  lemma LastGroupWins(nodes: seq<NodeRow>, baseIds: set<NodeId>, boxes: Option<set<BoxId>>, c: NodeId, a: NodeId,
                      g: GroupId, h: GroupId, p: real, q: real)
    requires g != h && Active(nodes, boxes, c)
    ensures var s := Assembled(nodes, baseIds, TwoGroups(c, a, g, h, p, q), boxes);
            && (forall d :: d in s.graph.derivations <==> d == Derivation(c, {a}))
            && s.strength == map[Derivation(c, {a}) := q]
  {
    var rows := TwoGroups(c, a, g, h, p, q);
    TwoGroupsAre(c, a, g, h, p, q);
    OneMoreGroup(nodes, boxes, rows, 0);
    OneMoreGroup(nodes, boxes, rows, 1);
    RulesOfAssembled(nodes, baseIds, rows, boxes);
    hide Keys, RuleOf, StrengthOfGroup, Active, HasKey, SortDerivations, TwoGroups;
    assert RulesUpTo(nodes, boxes, rows, 0) == [] && StrengthsUpTo(nodes, boxes, rows, 0) == map[];
  }

  function TwoGroups(c: NodeId, a: NodeId, g: GroupId, h: GroupId, p: real, q: real): seq<DerivedRow> {
    [DerivedRow(c, a, Some(g), p), DerivedRow(c, a, Some(h), q)]
  }

  lemma TwoGroupsAre(c: NodeId, a: NodeId, g: GroupId, h: GroupId, p: real, q: real)
    requires g != h
    ensures var rows := TwoGroups(c, a, g, h, p, q);
            && Keys(rows) == [Grouped(g), Grouped(h)]
            && HasKey(rows, Grouped(g)) && RuleOf(rows, Grouped(g)) == Derivation(c, {a})
            && HasKey(rows, Grouped(h)) && RuleOf(rows, Grouped(h)) == Derivation(c, {a})
            && StrengthOfGroup(rows, Grouped(h)) == q
  {
    var rows := TwoGroups(c, a, g, h, p, q);
    assert rows[..1] == [rows[0]] && rows[..1][..0] == [];
    assert KeyOf(rows[0]) == Grouped(g) && KeyOf(rows[1]) == Grouped(h);
    assert Keys(rows[..1]) == [Grouped(g)];
    assert StrengthsOf(rows[..1], Grouped(h)) == [];
    assert StrengthsOf(rows, Grouped(h)) == [q];
    assert HasKey(rows, Grouped(g)) && HasKey(rows, Grouped(h)) by {
      assert KeyOf(rows[0]) == Grouped(g) && KeyOf(rows[1]) == Grouped(h);
    }
    ConclusionOfRow(rows, Grouped(g));
    ConclusionOfRow(rows, Grouped(h));
    assert BodyOf(rows, Grouped(g)) == {a} by { assert rows[0].antecedent == a; }
    assert BodyOf(rows, Grouped(h)) == {a} by { assert rows[1].antecedent == a; }
  }

  /** So without one writer per rule the same rows in another order weigh the rule differently. */
  lemma OrderCanDecideTheStrength(nodes: seq<NodeRow>, baseIds: set<NodeId>, boxes: Option<set<BoxId>>, c: NodeId,
                                  a: NodeId, g: GroupId, h: GroupId)
    requires g != h && Active(nodes, boxes, c)
    ensures var rows, rows' := TwoGroups(c, a, g, h, 0.1, 0.9), TwoGroups(c, a, h, g, 0.9, 0.1);
            && SameRows(rows, rows') && OneConclusionPerGroup(rows)
            && Assembled(nodes, baseIds, rows, boxes).strength == map[Derivation(c, {a}) := 0.9]
            && Assembled(nodes, baseIds, rows', boxes).strength == map[Derivation(c, {a}) := 0.1]
  {
    hide Assembled, Active;
    LastGroupWins(nodes, baseIds, boxes, c, a, g, h, 0.1, 0.9);
    LastGroupWins(nodes, baseIds, boxes, c, a, h, g, 0.9, 0.1);
  }
}
