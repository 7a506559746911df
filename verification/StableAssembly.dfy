/**
 When the assembled subgraph is stable under the order of the DERIVED_FROM rows, as
 src/iknos/core/derivation_adapter.py promises (line 162): `StableExactlyWhen` gives the two
 conditions on the rows that are necessary and sufficient.
 */
module StableAssembly {
  import opened Sets
  import opened TruthMaintenance
  import opened DerivationOrder
  import opened DerivationAdapter
  import opened RowOrder

  /** The same rows, each as often, in whatever order. */
  ghost predicate Reordered(rows: seq<DerivedRow>, rows': seq<DerivedRow>) {
    multiset(rows) == multiset(rows')
  }

  /** Every order of the rows assembles the same subgraph. */
  ghost predicate Stable(nodes: seq<NodeRow>, baseIds: set<NodeId>, rows: seq<DerivedRow>, boxes: Option<set<BoxId>>) {
    forall rows' :: Reordered(rows, rows') ==>
      Assembled(nodes, baseIds, rows', boxes) == Assembled(nodes, baseIds, rows, boxes)
  }

  lemma ReorderedRows(rows: seq<DerivedRow>, rows': seq<DerivedRow>)
    requires Reordered(rows, rows')
    ensures SameRows(rows, rows')
  {
    forall row
      ensures row in rows <==> row in rows'
    {
      assert row in multiset(rows) <==> row in multiset(rows');
    }
  }

  // ---------------------------------------------------------------- a group with two conclusions

  /** Two rows of one group trade places at the end: every other group stays as it is. */
  lemma OthersStand(rest: seq<DerivedRow>, r: DerivedRow, r': DerivedRow, key: GroupKey)
    requires KeyOf(r) == KeyOf(r') != key
    ensures HasKey(rest + [r] + [r'], key) <==> HasKey(rest, key)
    ensures HasKey(rest + [r'] + [r], key) <==> HasKey(rest, key)
    ensures HasKey(rest, key) ==> RuleOf(rest + [r] + [r'], key) == RuleOf(rest + [r'] + [r], key)
  {
    hide HasKey, ConclusionOf, BodyOf, KeyOf;
    HasKeyOfRow(rest, key);
    HasKeyOfRow(rest + [r] + [r'], key);
    HasKeyOfRow(rest + [r'] + [r], key);
    if HasKey(rest, key) {
      ConclusionOfOneMore(rest, r, key);
      ConclusionOfOneMore(rest, r', key);
      ConclusionOfOneMore(rest + [r], r', key);
      ConclusionOfOneMore(rest + [r'], r, key);
      SameBody(rest + [r] + [r'], rest + [r'] + [r], key);
    }
  }

  lemma SameKeysEitherWay(rest: seq<DerivedRow>, r: DerivedRow, r': DerivedRow)
    requires KeyOf(r) == KeyOf(r')
    ensures Keys(rest + [r] + [r']) == Keys(rest + [r'] + [r])
  {
    KeysOfOneMore(rest, r);
    KeysOfOneMore(rest, r');
    KeysOfOneMore(rest + [r], r');
    KeysOfOneMore(rest + [r'], r);
  }

  /** Whichever of two conclusions comes last is the group's: the assembly has a rule more for it. */
  lemma LastConclusionShows(nodes: seq<NodeRow>, boxes: Option<set<BoxId>>, rest: seq<DerivedRow>, r: DerivedRow,
                            r': DerivedRow)
    requires KeyOf(r) == KeyOf(r') && Active(nodes, boxes, r.conclusion) && r'.conclusion != r.conclusion
    ensures var rows, rows' := rest + [r'] + [r], rest + [r] + [r'];
            multiset(RulesUpTo(nodes, boxes, rows, |Keys(rows)|))
            != multiset(RulesUpTo(nodes, boxes, rows', |Keys(rows')|))
  {
    hide *;
    var rows, rows', key := rest + [r'] + [r], rest + [r] + [r'], KeyOf(r);
    SameKeysEitherWay(rest, r, r');
    var n := |Keys(rows)|;
    ConclusionOfOneMore(rest + [r'], r, key);
    ConclusionOfOneMore(rest + [r], r', key);
    var d := RuleOf(rows, key);
    RuleOccurs(nodes, boxes, rows, n, d);
    RuleOccurs(nodes, boxes, rows', n, d);
    var writers, writers' := WritersOf(nodes, boxes, rows, n, d), WritersOf(nodes, boxes, rows', n, d);
    WritesItsConclusion(nodes, boxes, rows, key);
    WritesNoOther(nodes, boxes, rows', key, d);
    forall k
      ensures k in writers <==> k in writers' || k == key
      ensures key !in writers'
    {
      AllWriters(nodes, boxes, rows, d, k);
      AllWriters(nodes, boxes, rows', d, k);
      AllWriters(nodes, boxes, rows', d, key);
      if k != key {
        OthersStand(rest, r, r', k);
        SameRuleSameWrite(nodes, boxes, rows, rows', k, d);
      }
    }
    assert writers == writers' + {key};
  }

  lemma WritesItsConclusion(nodes: seq<NodeRow>, boxes: Option<set<BoxId>>, rows: seq<DerivedRow>, key: GroupKey)
    requires HasKey(rows, key) && Active(nodes, boxes, ConclusionOf(rows, key))
    ensures WritesRule(nodes, boxes, rows, key, RuleOf(rows, key))
    ensures RuleOf(rows, key).conclusion == ConclusionOf(rows, key)
  {
  }

  lemma WritesNoOther(nodes: seq<NodeRow>, boxes: Option<set<BoxId>>, rows: seq<DerivedRow>, key: GroupKey,
                      d: Derivation)
    requires HasKey(rows, key) && ConclusionOf(rows, key) != d.conclusion
    ensures !WritesRule(nodes, boxes, rows, key, d)
  {
  }

  lemma SameRuleSameWrite(nodes: seq<NodeRow>, boxes: Option<set<BoxId>>, rows: seq<DerivedRow>,
                          rows': seq<DerivedRow>, key: GroupKey, d: Derivation)
    requires HasKey(rows, key) <==> HasKey(rows', key)
    requires HasKey(rows, key) ==> RuleOf(rows, key) == RuleOf(rows', key)
    ensures WritesRule(nodes, boxes, rows, key, d) <==> WritesRule(nodes, boxes, rows', key, d)
  {
  }

  lemma AmbiguousGroupShows(nodes: seq<NodeRow>, baseIds: set<NodeId>, rows: seq<DerivedRow>,
                            boxes: Option<set<BoxId>>, r: DerivedRow, r': DerivedRow)
    requires r in rows && r' in rows && KeyOf(r) == KeyOf(r')
    requires Active(nodes, boxes, r.conclusion) && r'.conclusion != r.conclusion
    ensures !Stable(nodes, baseIds, rows, boxes)
  {
    hide Assembled, Active, KeyOf;
    var rest := PutBothLast(rows, r, r');
    LastConclusionShows(nodes, boxes, rest, r, r');
    DifferentRules(nodes, baseIds, rest + [r] + [r'], rest + [r'] + [r], boxes);
  }

  lemma DifferentRules(nodes: seq<NodeRow>, baseIds: set<NodeId>, rows: seq<DerivedRow>, rows': seq<DerivedRow>,
                       boxes: Option<set<BoxId>>)
    requires multiset(RulesUpTo(nodes, boxes, rows, |Keys(rows)|))
          != multiset(RulesUpTo(nodes, boxes, rows', |Keys(rows')|))
    ensures Assembled(nodes, baseIds, rows, boxes) != Assembled(nodes, baseIds, rows', boxes)
  {
    hide RulesUpTo, StrengthsUpTo, Keys, ActiveAmong, BaseConfidences, Sorted;
  }

  // ---------------------------------------------------------------- two strengths for one rule

  /** The rows of one group can be put after all others. */
  lemma {:induction false} PutGroupLast(rows: seq<DerivedRow>, key: GroupKey)
    returns (front: seq<DerivedRow>, back: seq<DerivedRow>)
    ensures multiset(front + back) == multiset(rows)
    ensures forall row :: row in front ==> KeyOf(row) != key
    ensures forall row :: row in back ==> KeyOf(row) == key
  {
    front, back := [], [];
    if rows != [] {
      var last := rows[|rows| - 1];
      front, back := PutGroupLast(rows[..|rows| - 1], key);
      assert rows == rows[..|rows| - 1] + [last];
      hide KeyOf;
      if KeyOf(last) == key {
        assert front + (back + [last]) == front + back + [last];
        back := back + [last];
      } else {
        assert multiset(front + [last] + back) == multiset(front + back + [last]);
        front := front + [last];
      }
    }
  }

  lemma {:induction false} LastKey(front: seq<DerivedRow>, back: seq<DerivedRow>, key: GroupKey)
    requires key !in Keys(front) && forall row :: row in back ==> KeyOf(row) == key
    ensures Keys(front + back) == Keys(front) + if back == [] then [] else [key]
  {
    if back == [] {
      assert front + back == front;
    } else {
      var before, last := back[..|back| - 1], back[|back| - 1];
      assert front + back == front + before + [last] && last in back;
      LastKey(front, before, key);
      KeysOfOneMore(front + before, last);
    }
  }

  /** In some order of the rows a given writer of a rule has the last word on its strength. */
  lemma WriterCanBeLast(nodes: seq<NodeRow>, baseIds: set<NodeId>, rows: seq<DerivedRow>, boxes: Option<set<BoxId>>,
                        key: GroupKey, d: Derivation) returns (rows': seq<DerivedRow>)
    requires ActiveConclusionsAgree(nodes, boxes, rows) && WritesRule(nodes, boxes, rows, key, d)
    ensures Reordered(rows, rows')
    ensures var s := Assembled(nodes, baseIds, rows', boxes);
            d in s.strength && s.strength[d] == StrengthOfGroup(rows, key)
  {
    assert HasKey(rows, key);
    hide HasKey, RuleOf, Active, StrengthOfGroup, Keys, KeyOf, RulesUpTo, StrengthsUpTo, ConclusionOf,
      ActiveConclusionsAgree, SortDerivations;
    var front, back := PutGroupLast(rows, key);
    rows' := front + back;
    ReorderedRows(rows, rows');
    OrderKeepsWrites(nodes, boxes, rows, rows', key, d);
    HasKeyOfRow(front, key);
    HasKeyOfRow(rows', key);
    KeysAreTheGroups(front);
    LastKey(front, back, key);
    var n := |Keys(rows')|;
    assert Keys(rows')[n - 1] == key;
    OneMoreGroup(nodes, boxes, rows', n - 1);
    WrittenByOneGroup(nodes, boxes, rows', key);
  }

  lemma DisagreeingWritersShow(nodes: seq<NodeRow>, baseIds: set<NodeId>, rows: seq<DerivedRow>,
                               boxes: Option<set<BoxId>>, k: GroupKey, k': GroupKey, d: Derivation)
    requires ActiveConclusionsAgree(nodes, boxes, rows)
    requires WritesRule(nodes, boxes, rows, k, d) && WritesRule(nodes, boxes, rows, k', d)
    requires StrengthOfGroup(rows, k) != StrengthOfGroup(rows, k')
    ensures !Stable(nodes, baseIds, rows, boxes)
  {
    hide Assembled, ActiveConclusionsAgree, WritesRule, StrengthOfGroup, Reordered;
    var one := WriterCanBeLast(nodes, baseIds, rows, boxes, k, d);
    var other := WriterCanBeLast(nodes, baseIds, rows, boxes, k', d);
  }

  // ---------------------------------------------------------------- the boundary

  /** Every order of the rows assembles the same subgraph exactly when a group never names an active
      conclusion beside another, and groups that write one active rule give it one strength. */
  lemma StableExactlyWhen(nodes: seq<NodeRow>, baseIds: set<NodeId>, rows: seq<DerivedRow>, boxes: Option<set<BoxId>>)
    ensures Stable(nodes, baseIds, rows, boxes)
       <==> ActiveConclusionsAgree(nodes, boxes, rows) && WritersAgree(nodes, boxes, rows)
  {
    hide Assembled, Active, KeyOf, StrengthOfGroup, HasKey, RuleOf, Reordered;
    if ActiveConclusionsAgree(nodes, boxes, rows) && WritersAgree(nodes, boxes, rows) {
      forall rows' | Reordered(rows, rows')
        ensures Assembled(nodes, baseIds, rows', boxes) == Assembled(nodes, baseIds, rows, boxes)
      {
        ReorderedRows(rows, rows');
        AssemblyIgnoresRowOrder(nodes, baseIds, rows, rows', boxes);
      }
    } else if !ActiveConclusionsAgree(nodes, boxes, rows) {
      var r, r' :| r in rows && r' in rows && KeyOf(r) == KeyOf(r') && Active(nodes, boxes, r.conclusion)
                   && r'.conclusion != r.conclusion;
      AmbiguousGroupShows(nodes, baseIds, rows, boxes, r, r');
    } else {
      var k, k', d :| WritesRule(nodes, boxes, rows, k, d) && WritesRule(nodes, boxes, rows, k', d)
                      && StrengthOfGroup(rows, k) != StrengthOfGroup(rows, k');
      DisagreeingWritersShow(nodes, baseIds, rows, boxes, k, k', d);
    }
  }
}
