/**
 The row read of src/iknos/core/derivation_adapter.py drops every edge into a retracted node,
 while the assembly's contract asks for antecedents to be kept. Dropping one shrinks a body.

 `ReadIsExactWhenUntouched` reads off the rows when the two assemble the same graph.
 `ReadKeepsSupport` draws the line for the support: no shrunken rule may rest on supported
 antecedents while its conclusion is unsupported. `ReadScoresNoLower` orders the confidences, and
 RevivingRead.dfy has the inputs on which the two part.
 */
module CurrentRead {
  import opened Sets
  import opened TruthMaintenance
  import opened Confidence
  import opened Valuation
  import opened DerivationOrder
  import opened DerivationAdapter
  import opened RowOrder
  import opened Derive

  /** The edges between current nodes. */
  function CurrentRows(rows: seq<DerivedRow>, gone: set<NodeId>): (current: seq<DerivedRow>)
    ensures forall row :: row in current <==> row in rows && row.conclusion !in gone && row.antecedent !in gone
  {
    if rows == [] then []
    else
      var front, last := rows[..|rows| - 1], rows[|rows| - 1];
      assert rows == front + [last];
      CurrentRows(front, gone) + if last.conclusion in gone || last.antecedent in gone then [] else [last]
  }

  /** A group whose conclusion survives keeps exactly its surviving antecedents. */
  lemma CurrentGroup(rows: seq<DerivedRow>, gone: set<NodeId>, key: GroupKey)
    requires OneConclusionPerGroup(rows)
    ensures HasKey(CurrentRows(rows, gone), key) <==>
              HasKey(rows, key) && RuleOf(rows, key).conclusion !in gone && RuleOf(rows, key).body - gone != {}
    ensures HasKey(CurrentRows(rows, gone), key) ==>
              RuleOf(CurrentRows(rows, gone), key)
              == Derivation(RuleOf(rows, key).conclusion, RuleOf(rows, key).body - gone)
  {
    hide HasKey, OneConclusionPerGroup, BodyOf, CurrentRows, ConclusionOf;
    var current := CurrentRows(rows, gone);
    HasKeyOfRow(rows, key);
    HasKeyOfRow(current, key);
    SameRowsSameGroup(rows, rows, key);
    if HasKey(rows, key) {
      ConclusionOfRow(rows, key);
      forall a
        ensures a in BodyOf(rows, key) <==> exists row :: row in rows && KeyOf(row) == key && row.antecedent == a
        ensures a in BodyOf(current, key) <==> exists row :: row in current && KeyOf(row) == key && row.antecedent == a
      {
        BodyOfRows(rows, key, a);
        BodyOfRows(current, key, a);
      }
      CurrentBody(rows, gone, key);
      if HasKey(current, key) {
        ConclusionOfRow(current, key);
      }
    }
  }

  lemma CurrentBody(rows: seq<DerivedRow>, gone: set<NodeId>, key: GroupKey)
    requires HasKey(rows, key) && AgreesOn(rows, key)
    ensures ConclusionOf(rows, key) !in gone ==>
              BodyOf(CurrentRows(rows, gone), key) == BodyOf(rows, key) - gone
              && (HasKey(CurrentRows(rows, gone), key) <==> BodyOf(rows, key) - gone != {})
    ensures ConclusionOf(rows, key) in gone ==> !HasKey(CurrentRows(rows, gone), key)
  {
    hide HasKey, BodyOf, ConclusionOf;
    var current := CurrentRows(rows, gone);
    HasKeyOfRow(current, key);
    ConclusionOfRow(rows, key);
    forall a
      ensures ConclusionOf(rows, key) !in gone ==> (a in BodyOf(current, key) <==> a in BodyOf(rows, key) && a !in gone)
    {
      BodyOfRows(rows, key, a);
      BodyOfRows(current, key, a);
    }
    if HasKey(current, key) {
      var row :| row in current && KeyOf(row) == key;
      BodyOfRows(current, key, row.antecedent);
    } else if ConclusionOf(rows, key) !in gone && BodyOf(rows, key) - gone != {} {
      var a :| a in BodyOf(rows, key) - gone;
      BodyOfRows(current, key, a);
      assert false;
    }
  }

  /** The rule the read leaves of `d`. */
  function Shrunk(d: Derivation, gone: set<NodeId>): Derivation {
    Derivation(d.conclusion, d.body - gone)
  }

  /** The read's rules are the contract's rules, shrunk, without those left bodiless. */
  lemma CurrentRules(nodes: seq<NodeRow>, baseIds: set<NodeId>, rows: seq<DerivedRow>, boxes: Option<set<BoxId>>,
                     gone: set<NodeId>, d: Derivation)
    requires OneConclusionPerGroup(rows)
    ensures d in Assembled(Keep(nodes, gone), baseIds, CurrentRows(rows, gone), boxes).graph.Rules()
       <==> exists r :: r in Assembled(Keep(nodes, gone), baseIds, rows, boxes).graph.Rules()
                        && r.body - gone != {} && d == Shrunk(r, gone)
  {
    var kept, current := Keep(nodes, gone), CurrentRows(rows, gone);
    hide *;
    RuleIsWritten(kept, baseIds, current, boxes, d);
    var rules := Assembled(kept, baseIds, rows, boxes).graph.Rules();
    if key :| WritesRule(kept, boxes, current, key, d) {
      ShrunkFrom(nodes, rows, boxes, gone, key, d);
      RuleIsWritten(kept, baseIds, rows, boxes, RuleOf(rows, key));
    }
    if r :| r in rules && r.body - gone != {} && d == Shrunk(r, gone) {
      RuleIsWritten(kept, baseIds, rows, boxes, r);
      var key :| WritesRule(kept, boxes, rows, key, r);
      ShrunkTo(nodes, rows, boxes, gone, key, r);
    }
  }

  lemma ShrunkFrom(nodes: seq<NodeRow>, rows: seq<DerivedRow>, boxes: Option<set<BoxId>>, gone: set<NodeId>,
                   key: GroupKey, d: Derivation)
    requires OneConclusionPerGroup(rows) && WritesRule(Keep(nodes, gone), boxes, CurrentRows(rows, gone), key, d)
    ensures HasKey(rows, key) && WritesRule(Keep(nodes, gone), boxes, rows, key, RuleOf(rows, key))
    ensures RuleOf(rows, key).body - gone != {} && d == Shrunk(RuleOf(rows, key), gone)
  {
    hide HasKey, RuleOf, Active, OneConclusionPerGroup;
    CurrentGroup(rows, gone, key);
  }

  lemma ShrunkTo(nodes: seq<NodeRow>, rows: seq<DerivedRow>, boxes: Option<set<BoxId>>, gone: set<NodeId>,
                 key: GroupKey, r: Derivation)
    requires OneConclusionPerGroup(rows) && WritesRule(Keep(nodes, gone), boxes, rows, key, r) && r.body - gone != {}
    ensures WritesRule(Keep(nodes, gone), boxes, CurrentRows(rows, gone), key, Shrunk(r, gone))
  {
    hide HasKey, RuleOf, OneConclusionPerGroup;
    RowOfKept(nodes, gone, r.conclusion);
    CurrentGroup(rows, gone, key);
  }

  // ---------------------------------------------------------------- what it does to the support

  /** A surviving rule that lost an antecedent, rests on supported ones, and concludes anew. */
  ghost predicate Revives(r: Derivation, support: set<NodeId>, gone: set<NodeId>) {
    r.body * gone != {} && r.body - gone != {} && r.body - gone <= support && r.conclusion !in support
  }

  /** The support over the rules as the read leaves them. */
  ghost function ShrunkRules(rules: set<Derivation>, gone: set<NodeId>): set<Derivation> {
    set r | r in rules && r.body - gone != {} :: Shrunk(r, gone)
  }

  lemma ShrinkingGrowsSupport(base: set<NodeId>, rules: set<Derivation>, gone: set<NodeId>)
    requires base !! gone && forall r :: r in rules ==> r.conclusion !in gone && r.body != {}
    ensures Support(base, rules) <= Support(base, ShrunkRules(rules, gone))
  {
    var support, grown := Support(base, rules), Support(base, ShrunkRules(rules, gone));
    SupportIsLeast(base, rules);
    SupportIsLeast(base, ShrunkRules(rules, gone));
    forall r | r in rules && r.body <= grown
      ensures r.conclusion in grown
    {
      assert r.body - gone == r.body;
      assert Shrunk(r, gone) in ShrunkRules(rules, gone);
    }
    assert Closed(base, rules, grown);
  }

  lemma ShrinkingKeepsSupport(base: set<NodeId>, rules: set<Derivation>, gone: set<NodeId>)
    requires base !! gone && forall r :: r in rules ==> r.conclusion !in gone && r.body != {}
    ensures Support(base, ShrunkRules(rules, gone)) == Support(base, rules)
       <==> forall r :: r in rules ==> !Revives(r, Support(base, rules), gone)
  {
    var support, grown := Support(base, rules), Support(base, ShrunkRules(rules, gone));
    SupportIsLeast(base, rules);
    SupportIsLeast(base, ShrunkRules(rules, gone));
    ShrinkingGrowsSupport(base, rules, gone);
    hide Support;
    if r :| r in rules && Revives(r, support, gone) {
      assert Shrunk(r, gone) in ShrunkRules(rules, gone);
      assert Shrunk(r, gone).body <= grown;
    } else {
      forall d | d in ShrunkRules(rules, gone) && d.body <= support
        ensures d.conclusion in support
      {
        var r :| r in rules && r.body - gone != {} && d == Shrunk(r, gone);
        if r.body * gone == {} {
          assert forall x :: x in r.body ==> x !in r.body * gone && x !in gone;
          assert r.body - gone == r.body;
        }
      }
      assert Closed(base, ShrunkRules(rules, gone), support);
    }
  }

  /** End to end: the read never loses support, and gives exactly the contract's support when
      and only when it revives nothing. */
  lemma ReadKeepsSupport(nodes: seq<NodeRow>, baseIds: set<NodeId>, rows: seq<DerivedRow>, boxes: Option<set<BoxId>>,
                         gone: set<NodeId>)
    requires OneConclusionPerGroup(rows)
    ensures var asAsked := Assembled(Keep(nodes, gone), baseIds, rows, boxes);
            var asRead := Assembled(Keep(nodes, gone), baseIds, CurrentRows(rows, gone), boxes);
            && SupportOf(asAsked) <= SupportOf(asRead)
            && (SupportOf(asRead) == SupportOf(asAsked) <==>
                  forall r :: r in asAsked.graph.Rules() ==> !Revives(r, SupportOf(asAsked), gone))
  {
    hide *;
    var kept := Keep(nodes, gone);
    var asAsked := Assembled(kept, baseIds, rows, boxes);
    var asRead := Assembled(kept, baseIds, CurrentRows(rows, gone), boxes);
    forall d
      ensures d in asRead.graph.Rules() <==> d in ShrunkRules(asAsked.graph.Rules(), gone)
    {
      CurrentRules(nodes, baseIds, rows, boxes, gone, d);
      ShrunkRulesMeans(asAsked.graph.Rules(), gone, d);
    }
    assert asRead.graph.Rules() == ShrunkRules(asAsked.graph.Rules(), gone);
    KeptRules(nodes, baseIds, rows, boxes, gone);
    SameFacts(kept, baseIds, rows, CurrentRows(rows, gone), boxes);
    SupportIs(asAsked);
    SupportIs(asRead);
    ShrinkingGrowsSupport(asAsked.graph.baseFacts, asAsked.graph.Rules(), gone);
    ShrinkingKeepsSupport(asAsked.graph.baseFacts, asAsked.graph.Rules(), gone);
  }

  lemma ShrunkRulesMeans(rules: set<Derivation>, gone: set<NodeId>, d: Derivation)
    ensures d in ShrunkRules(rules, gone) <==> exists r :: r in rules && r.body - gone != {} && d == Shrunk(r, gone)
  {
  }

  lemma SupportIs(s: ActiveSubgraph)
    ensures SupportOf(s) == Support(s.graph.baseFacts, s.graph.Rules())
  {
  }

  lemma SameFacts(nodes: seq<NodeRow>, baseIds: set<NodeId>, rows: seq<DerivedRow>, rows': seq<DerivedRow>,
                  boxes: Option<set<BoxId>>)
    ensures Assembled(nodes, baseIds, rows, boxes).graph.baseFacts
         == Assembled(nodes, baseIds, rows', boxes).graph.baseFacts
  {
  }

  lemma KeptRules(nodes: seq<NodeRow>, baseIds: set<NodeId>, rows: seq<DerivedRow>, boxes: Option<set<BoxId>>,
                  gone: set<NodeId>)
    ensures var s := Assembled(Keep(nodes, gone), baseIds, rows, boxes);
            s.graph.baseFacts !! gone && forall r :: r in s.graph.Rules() ==> r.conclusion !in gone && r.body != {}
  {
    hide Assembled, HasKey, BodyOf, ConclusionOf, Keep;
    var kept := Keep(nodes, gone);
    var s := Assembled(kept, baseIds, rows, boxes);
    forall n | n in s.graph.baseFacts
      ensures n !in gone
    {
      RowOfKept(nodes, gone, n);
      FactIsActive(kept, baseIds, rows, boxes, n);
    }
    forall r | r in s.graph.Rules()
      ensures r.conclusion !in gone && r.body != {}
    {
      RuleIsWritten(kept, baseIds, rows, boxes, r);
      var key :| WritesRule(kept, boxes, rows, key, r);
      RowOfKept(nodes, gone, r.conclusion);
      ConclusionOfRow(rows, key);
      var row :| row in rows && KeyOf(row) == key;
      BodyOfRows(rows, key, row.antecedent);
    }
  }

  lemma FactIsActive(nodes: seq<NodeRow>, baseIds: set<NodeId>, rows: seq<DerivedRow>, boxes: Option<set<BoxId>>,
                     n: NodeId)
    requires n in Assembled(nodes, baseIds, rows, boxes).graph.baseFacts
    ensures RowOf(nodes, n).Some?
  {
  }

  // ---------------------------------------------------------------- when it is exact

  /** No edge from an active node that is still there leads into a retracted one. */
  ghost predicate Untouched(nodes: seq<NodeRow>, rows: seq<DerivedRow>, boxes: Option<set<BoxId>>, gone: set<NodeId>) {
    forall row :: row in rows && Active(Keep(nodes, gone), boxes, row.conclusion) ==> row.antecedent !in gone
  }

  /** A group that loses no antecedent is read as it is. */
  lemma WholeGroup(rows: seq<DerivedRow>, gone: set<NodeId>, key: GroupKey)
    requires OneConclusionPerGroup(rows) && HasKey(rows, key)
    requires RuleOf(rows, key).conclusion !in gone && RuleOf(rows, key).body !! gone
    ensures HasKey(CurrentRows(rows, gone), key) && RuleOf(CurrentRows(rows, gone), key) == RuleOf(rows, key)
    ensures StrengthOfGroup(CurrentRows(rows, gone), key) == StrengthOfGroup(rows, key)
  {
    hide HasKey, BodyOf, ConclusionOf, StrengthOfGroup, OneConclusionPerGroup, CurrentRows;
    var current := CurrentRows(rows, gone);
    SameRowsSameGroup(rows, rows, key);
    ConclusionOfRow(rows, key);
    forall row | KeyOf(row) == key
      ensures row in rows <==> row in current
    {
      if row in rows {
        BodyOfRows(rows, key, row.antecedent);
      }
    }
    GroupIgnoresOrder(rows, current, key);
  }

  lemma UntouchedRule(nodes: seq<NodeRow>, rows: seq<DerivedRow>, boxes: Option<set<BoxId>>, gone: set<NodeId>,
                      key: GroupKey, d: Derivation)
    requires OneConclusionPerGroup(rows) && Untouched(nodes, rows, boxes, gone)
    requires WritesRule(Keep(nodes, gone), boxes, rows, key, d)
    ensures d.conclusion !in gone && d.body !! gone
  {
    hide HasKey, BodyOf, ConclusionOf, Keep, OneConclusionPerGroup;
    RowOfKept(nodes, gone, d.conclusion);
    SameRowsSameGroup(rows, rows, key);
    ConclusionOfRow(rows, key);
    forall a | a in d.body
      ensures a !in gone
    {
      BodyOfRows(rows, key, a);
    }
  }

  /** Those of the keys that are in `live`, in order. */
  ghost function Among(keys: seq<GroupKey>, live: set<GroupKey>): seq<GroupKey> {
    if keys == [] then []
    else
      var front, last := keys[..|keys| - 1], keys[|keys| - 1];
      Among(front, live) + if last in live then [last] else []
  }

  lemma {:induction false} AmongHas(keys: seq<GroupKey>, live: set<GroupKey>, key: GroupKey)
    ensures key in Among(keys, live) <==> key in keys && key in live
  {
    if keys != [] {
      AmongHas(keys[..|keys| - 1], live, key);
      assert keys == keys[..|keys| - 1] + [keys[|keys| - 1]];
    }
  }

  /** The groups in `live` are met in the same order if the read drops none of their rows. */
  lemma {:induction false} SameLiveKeys(rows: seq<DerivedRow>, gone: set<NodeId>, live: set<GroupKey>)
    requires forall row :: row in rows && KeyOf(row) in live ==> row.conclusion !in gone && row.antecedent !in gone
    ensures Among(Keys(CurrentRows(rows, gone)), live) == Among(Keys(rows), live)
  {
    if rows != [] {
      var front, last := rows[..|rows| - 1], rows[|rows| - 1];
      assert rows == front + [last];
      SameLiveKeys(front, gone, live);
      var keys, keys' := Keys(front), Keys(CurrentRows(front, gone));
      AmongHas(keys, live, KeyOf(last));
      AmongHas(keys', live, KeyOf(last));
      assert (keys + [KeyOf(last)])[..|keys|] == keys && (keys' + [KeyOf(last)])[..|keys'|] == keys';
      var current := CurrentRows(rows, gone);
      assert current == CurrentRows(front, gone) || current == CurrentRows(front, gone) + [last];
      assert (CurrentRows(front, gone) + [last])[..|CurrentRows(front, gone)|] == CurrentRows(front, gone);
    }
  }

  /** What groups write in turn: their rules, and each rule's strength by its last writer. */
  datatype Writing = Writing(rules: seq<Derivation>, strength: map<Derivation, real>) {
    ghost function Then(d: Derivation, x: real): Writing {
      Writing(rules + [d], strength[d := x])
    }
  }

  ghost function WrittenBy(rows: seq<DerivedRow>, keys: seq<GroupKey>): Writing
    requires forall key :: key in keys ==> HasKey(rows, key)
  {
    if keys == [] then Writing([], map[])
    else
      var last := keys[|keys| - 1];
      WrittenBy(rows, keys[..|keys| - 1]).Then(RuleOf(rows, last), StrengthOfGroup(rows, last))
  }

  lemma {:induction false} WrittenAlike(rows: seq<DerivedRow>, rows': seq<DerivedRow>, keys: seq<GroupKey>)
    requires forall key :: key in keys ==> HasKey(rows, key) && HasKey(rows', key)
    requires forall key :: key in keys ==> SameAsWritten(rows, rows', key)
    ensures WrittenBy(rows', keys) == WrittenBy(rows, keys)
  {
    if keys != [] {
      WrittenAlike(rows, rows', keys[..|keys| - 1]);
      assert SameAsWritten(rows, rows', keys[|keys| - 1]);
    }
  }

  ghost predicate SameAsWritten(rows: seq<DerivedRow>, rows': seq<DerivedRow>, key: GroupKey) {
    && HasKey(rows, key) && HasKey(rows', key)
    && RuleOf(rows', key) == RuleOf(rows, key) && StrengthOfGroup(rows', key) == StrengthOfGroup(rows, key)
  }

  lemma AmongOneMore(keys: seq<GroupKey>, key: GroupKey, live: set<GroupKey>)
    ensures Among(keys + [key], live) == Among(keys, live) + if key in live then [key] else []
  {
    assert (keys + [key])[..|keys|] == keys;
  }

  lemma WrittenByOneMore(rows: seq<DerivedRow>, keys: seq<GroupKey>, key: GroupKey)
    requires HasKey(rows, key) && forall k :: k in keys ==> HasKey(rows, k)
    ensures forall k :: k in keys + [key] ==> HasKey(rows, k)
    ensures WrittenBy(rows, keys + [key]) == WrittenBy(rows, keys).Then(RuleOf(rows, key), StrengthOfGroup(rows, key))
  {
    assert (keys + [key])[..|keys|] == keys;
  }

  /** The groups with an active conclusion. */
  ghost predicate LiveGroups(nodes: seq<NodeRow>, boxes: Option<set<BoxId>>, rows: seq<DerivedRow>,
                             live: set<GroupKey>)
  {
    forall key :: HasKey(rows, key) ==> (key in live <==> Active(nodes, boxes, ConclusionOf(rows, key)))
  }

  /** Groups with no active conclusion leave no trace in the assembly. */
  lemma {:induction false} LiveGroupsDecide(nodes: seq<NodeRow>, boxes: Option<set<BoxId>>, rows: seq<DerivedRow>,
                                            k: nat, live: set<GroupKey>)
    requires k <= |Keys(rows)| && LiveGroups(nodes, boxes, rows, live)
    ensures forall key :: key in Among(Keys(rows)[..k], live) ==> HasKey(rows, key)
    ensures Writing(RulesUpTo(nodes, boxes, rows, k), StrengthsUpTo(nodes, boxes, rows, k))
         == WrittenBy(rows, Among(Keys(rows)[..k], live))
  {
    hide *;
    if k == 0 {
      NoGroups(nodes, boxes, rows, live);
    } else {
      var keys, last := Keys(rows)[..k - 1], Keys(rows)[k - 1];
      TakeMore(Keys(rows), k - 1);
      LiveGroupsDecide(nodes, boxes, rows, k - 1, live);
      OneMoreGroup(nodes, boxes, rows, k - 1);
      LiveAt(nodes, boxes, rows, live, last);
      ThenIs(RulesUpTo(nodes, boxes, rows, k - 1), StrengthsUpTo(nodes, boxes, rows, k - 1), RuleOf(rows, last),
             StrengthOfGroup(rows, last));
      OneMoreLive(rows, keys, last, live);
    }
  }

  lemma NoGroups(nodes: seq<NodeRow>, boxes: Option<set<BoxId>>, rows: seq<DerivedRow>, live: set<GroupKey>)
    ensures Among(Keys(rows)[..0], live) == []
    ensures Writing(RulesUpTo(nodes, boxes, rows, 0), StrengthsUpTo(nodes, boxes, rows, 0)) == WrittenBy(rows, [])
  {
  }

  lemma OneMoreLive(rows: seq<DerivedRow>, keys: seq<GroupKey>, last: GroupKey, live: set<GroupKey>)
    requires HasKey(rows, last) && forall key :: key in Among(keys, live) ==> HasKey(rows, key)
    ensures forall key :: key in Among(keys + [last], live) ==> HasKey(rows, key)
    ensures WrittenBy(rows, Among(keys + [last], live))
         == if last in live then WrittenBy(rows, Among(keys, live)).Then(RuleOf(rows, last), StrengthOfGroup(rows, last))
            else WrittenBy(rows, Among(keys, live))
  {
    hide *;
    AmongOneMore(keys, last, live);
    if last in live {
      WrittenByOneMore(rows, Among(keys, live), last);
    } else {
      assert Among(keys, live) + [] == Among(keys, live);
    }
  }

  lemma LiveAt(nodes: seq<NodeRow>, boxes: Option<set<BoxId>>, rows: seq<DerivedRow>, live: set<GroupKey>, key: GroupKey)
    requires LiveGroups(nodes, boxes, rows, live) && HasKey(rows, key)
    ensures key in live <==> Active(nodes, boxes, ConclusionOf(rows, key))
  {
  }

  lemma ThenIs(rules: seq<Derivation>, strength: map<Derivation, real>, d: Derivation, x: real)
    ensures Writing(rules, strength).Then(d, x) == Writing(rules + [d], strength[d := x])
  {
  }

  /** An untouched group with an active conclusion is read as it is. */
  lemma UntouchedGroup(nodes: seq<NodeRow>, rows: seq<DerivedRow>, boxes: Option<set<BoxId>>, gone: set<NodeId>,
                       key: GroupKey)
    requires OneConclusionPerGroup(rows) && Untouched(nodes, rows, boxes, gone) && HasKey(rows, key)
    requires Active(Keep(nodes, gone), boxes, ConclusionOf(rows, key))
    ensures SameAsWritten(rows, CurrentRows(rows, gone), key)
    ensures forall row :: row in rows && KeyOf(row) == key ==> row.conclusion !in gone && row.antecedent !in gone
  {
    hide HasKey, BodyOf, ConclusionOf, Active, OneConclusionPerGroup, StrengthOfGroup, CurrentRows;
    SameRowsSameGroup(rows, rows, key);
    ConclusionOfRow(rows, key);
    UntouchedRule(nodes, rows, boxes, gone, key, RuleOf(rows, key));
    WholeGroup(rows, gone, key);
  }

  lemma UntouchedIsWhole(nodes: seq<NodeRow>, baseIds: set<NodeId>, rows: seq<DerivedRow>, boxes: Option<set<BoxId>>,
                         gone: set<NodeId>)
    requires OneConclusionPerGroup(rows) && Untouched(nodes, rows, boxes, gone)
    ensures Assembled(Keep(nodes, gone), baseIds, CurrentRows(rows, gone), boxes)
         == Assembled(Keep(nodes, gone), baseIds, rows, boxes)
  {
    hide HasKey, RuleOf, Active, StrengthOfGroup, OneConclusionPerGroup, Untouched, CurrentRows, Keep, Keys, ConclusionOf,
      BodyOf, RulesUpTo, StrengthsUpTo, SortDerivations, ActiveAmong, BaseConfidences, WrittenBy, Among, KeyOf;
    var kept, current := Keep(nodes, gone), CurrentRows(rows, gone);
    var live := set row | row in rows && Active(kept, boxes, row.conclusion) :: KeyOf(row);
    forall key | HasKey(rows, key)
      ensures key in live <==> Active(kept, boxes, ConclusionOf(rows, key))
      ensures key in live ==> SameAsWritten(rows, current, key)
      ensures key in live ==>
                forall row :: row in rows && KeyOf(row) == key ==> row.conclusion !in gone && row.antecedent !in gone
    {
      SameRowsSameGroup(rows, rows, key);
      ConclusionOfRow(rows, key);
      if key in live {
        UntouchedGroup(nodes, rows, boxes, gone, key);
      }
    }
    CurrentLive(kept, boxes, rows, gone, live);
    HasKeysOf(rows);
    SameLiveKeys(rows, gone, live);
    LiveGroupsDecide(kept, boxes, rows, |Keys(rows)|, live);
    LiveGroupsDecide(kept, boxes, current, |Keys(current)|, live);
    assert Keys(rows)[..|Keys(rows)|] == Keys(rows) && Keys(current)[..|Keys(current)|] == Keys(current);
    forall key | key in Among(Keys(rows), live)
      ensures SameAsWritten(rows, current, key)
    {
      AmongHas(Keys(rows), live, key);
    }
    WrittenAlike(rows, current, Among(Keys(rows), live));
  }

  lemma HasKeysOf(rows: seq<DerivedRow>)
    ensures forall row :: row in rows ==> HasKey(rows, KeyOf(row))
  {
    forall row | row in rows
      ensures HasKey(rows, KeyOf(row))
    {
      HasKeyOfRow(rows, KeyOf(row));
    }
  }

  lemma CurrentLive(nodes: seq<NodeRow>, boxes: Option<set<BoxId>>, rows: seq<DerivedRow>, gone: set<NodeId>,
                    live: set<GroupKey>)
    requires OneConclusionPerGroup(rows) && LiveGroups(nodes, boxes, rows, live)
    ensures LiveGroups(nodes, boxes, CurrentRows(rows, gone), live)
  {
    hide HasKey, ConclusionOf, Active, OneConclusionPerGroup, BodyOf;
    var current := CurrentRows(rows, gone);
    forall key | HasKey(current, key)
      ensures key in live <==> Active(nodes, boxes, ConclusionOf(current, key))
    {
      CurrentGroup(rows, gone, key);
    }
  }

  /** The read assembles the contract's subgraph exactly when it touches no active rule: then
      support and confidence are the contract's as well. */
  lemma ReadIsExactWhenUntouched(nodes: seq<NodeRow>, baseIds: set<NodeId>, rows: seq<DerivedRow>,
                                 boxes: Option<set<BoxId>>, gone: set<NodeId>)
    requires OneConclusionPerGroup(rows)
    ensures Assembled(Keep(nodes, gone), baseIds, CurrentRows(rows, gone), boxes)
            == Assembled(Keep(nodes, gone), baseIds, rows, boxes)
       <==> Untouched(nodes, rows, boxes, gone)
  {
    hide Assembled, OneConclusionPerGroup, Active;
    if Untouched(nodes, rows, boxes, gone) {
      UntouchedIsWhole(nodes, baseIds, rows, boxes, gone);
    } else {
      var row :| row in rows && Active(Keep(nodes, gone), boxes, row.conclusion) && row.antecedent in gone;
      TouchedRule(nodes, baseIds, rows, boxes, gone, row);
    }
  }

  lemma TouchedRule(nodes: seq<NodeRow>, baseIds: set<NodeId>, rows: seq<DerivedRow>, boxes: Option<set<BoxId>>,
                    gone: set<NodeId>, row: DerivedRow)
    requires OneConclusionPerGroup(rows)
    requires row in rows && Active(Keep(nodes, gone), boxes, row.conclusion) && row.antecedent in gone
    ensures Assembled(Keep(nodes, gone), baseIds, CurrentRows(rows, gone), boxes)
         != Assembled(Keep(nodes, gone), baseIds, rows, boxes)
  {
    hide Assembled, HasKey, BodyOf, ConclusionOf, OneConclusionPerGroup, Active, CurrentRows, Keep;
    var kept, key := Keep(nodes, gone), KeyOf(row);
    SameRowsSameGroup(rows, rows, key);
    HasKeyOfRow(rows, key);
    ConclusionOfRow(rows, key);
    BodyOfRows(rows, key, row.antecedent);
    var r := RuleOf(rows, key);
    assert WritesRule(kept, boxes, rows, key, r);
    RuleIsWritten(kept, baseIds, rows, boxes, r);
    CurrentRules(nodes, baseIds, rows, boxes, gone, r);
  }

  // ---------------------------------------------------------------- what it does to the confidence

  /** The rules both assemblies have are no weaker as read. */
  ghost predicate NoRuleWeakened(asAsked: ActiveSubgraph, asRead: ActiveSubgraph) {
    forall d :: d in asAsked.strength && d in asRead.strength ==> asAsked.strength[d] <= asRead.strength[d]
  }

  /** As long as the read weakens no rule, no node of the contract's support scores lower. */
  lemma ReadScoresNoLower(nodes: seq<NodeRow>, baseIds: set<NodeId>, rows: seq<DerivedRow>, boxes: Option<set<BoxId>>,
                          gone: set<NodeId>, sr: Semiring)
    requires OneConclusionPerGroup(rows) && RowsInRange(nodes, rows) && Lawful(sr)
    requires NoRuleWeakened(Assembled(Keep(nodes, gone), baseIds, rows, boxes),
                            Assembled(Keep(nodes, gone), baseIds, CurrentRows(rows, gone), boxes))
    ensures var asAsked := Assembled(Keep(nodes, gone), baseIds, rows, boxes);
            var asRead := Assembled(Keep(nodes, gone), baseIds, CurrentRows(rows, gone), boxes);
            && InputOf(asAsked, {}, sr).InRange() && InputOf(asRead, {}, sr).InRange()
            && LayerB(asAsked, sr).Keys == SupportOf(asAsked) && LayerB(asRead, sr).Keys == SupportOf(asRead)
            && SupportOf(asAsked) <= SupportOf(asRead)
            && forall n :: n in SupportOf(asAsked) ==> LayerB(asAsked, sr)[n] <= LayerB(asRead, sr)[n]
  {
    hide *;
    var kept, current := Keep(nodes, gone), CurrentRows(rows, gone);
    var asAsked, asRead := Assembled(kept, baseIds, rows, boxes), Assembled(kept, baseIds, current, boxes);
    ReadInRange(nodes, rows, gone);
    AssembledInRange(kept, baseIds, rows, boxes, {}, sr);
    AssembledInRange(kept, baseIds, current, boxes, {}, sr);
    ReadKeepsSupport(nodes, baseIds, rows, boxes, gone);
    ReadExtends(nodes, baseIds, rows, boxes, gone, sr);
    LayerBGrows(asRead, asAsked, sr);
  }

  /** No rule is weakened if the groups as read agree on the strength of the rules they write alike:
      then a rule two groups come to share weighs what its writer in the contract gave it. */
  lemma AgreeingReadWeakensNothing(nodes: seq<NodeRow>, baseIds: set<NodeId>, rows: seq<DerivedRow>,
                                   boxes: Option<set<BoxId>>, gone: set<NodeId>)
    requires OneConclusionPerGroup(rows) && WritersAgree(Keep(nodes, gone), boxes, CurrentRows(rows, gone))
    ensures NoRuleWeakened(Assembled(Keep(nodes, gone), baseIds, rows, boxes),
                           Assembled(Keep(nodes, gone), baseIds, CurrentRows(rows, gone), boxes))
  {
    hide Assembled, OneConclusionPerGroup, WritersAgree, CurrentRows, Keep, StrengthOfGroup, HasKey, RuleOf;
    var kept, current := Keep(nodes, gone), CurrentRows(rows, gone);
    var asAsked, asRead := Assembled(kept, baseIds, rows, boxes), Assembled(kept, baseIds, current, boxes);
    forall d | d in asAsked.strength && d in asRead.strength
      ensures asAsked.strength[d] == asRead.strength[d]
    {
      StrengthsAreOfRules(kept, baseIds, rows, boxes, d);
      StrengthsAreOfRules(kept, baseIds, current, boxes, d);
      AssembledAt(kept, baseIds, current, boxes, d);
      var key := WriterOf(kept, baseIds, rows, boxes, d);
      CurrentRules(nodes, baseIds, rows, boxes, gone, d);
      RowOfKept(nodes, gone, d.conclusion);
      WholeGroup(rows, gone, key);
      assert WritesRule(kept, boxes, current, key, d);
    }
  }

  lemma WriterOf(nodes: seq<NodeRow>, baseIds: set<NodeId>, rows: seq<DerivedRow>, boxes: Option<set<BoxId>>,
                 d: Derivation) returns (key: GroupKey)
    requires d in Assembled(nodes, baseIds, rows, boxes).strength
    ensures WritesRule(nodes, boxes, rows, key, d)
    ensures Assembled(nodes, baseIds, rows, boxes).strength[d] == StrengthOfGroup(rows, key)
  {
    hide StrengthsUpTo, RulesUpTo, Keys, SortDerivations, WritesRule, StrengthOfGroup;
    key := StrengthOfSomeWriter(nodes, boxes, rows, |Keys(rows)|, d);
  }

  lemma StrengthsAreOfRules(nodes: seq<NodeRow>, baseIds: set<NodeId>, rows: seq<DerivedRow>,
                            boxes: Option<set<BoxId>>, d: Derivation)
    ensures var s := Assembled(nodes, baseIds, rows, boxes); d in s.strength <==> d in s.graph.derivations
  {
    StrengthMapFacts(nodes, boxes, rows, |Keys(rows)|);
    RulesOfAssembled(nodes, baseIds, rows, boxes);
    hide StrengthsUpTo, RulesUpTo, Keys, SortDerivations;
  }

  lemma ReadInRange(nodes: seq<NodeRow>, rows: seq<DerivedRow>, gone: set<NodeId>)
    requires RowsInRange(nodes, rows)
    ensures RowsInRange(Keep(nodes, gone), rows) && RowsInRange(Keep(nodes, gone), CurrentRows(rows, gone))
  {
    var current := CurrentRows(rows, gone);
    forall i | 0 <= i < |current|
      ensures Unit(current[i].strength)
    {
      assert current[i] in rows;
    }
    KeptInRange(nodes, rows, gone);
  }

  lemma ReadExtends(nodes: seq<NodeRow>, baseIds: set<NodeId>, rows: seq<DerivedRow>, boxes: Option<set<BoxId>>,
                    gone: set<NodeId>, sr: Semiring)
    requires OneConclusionPerGroup(rows)
    requires NoRuleWeakened(Assembled(Keep(nodes, gone), baseIds, rows, boxes),
                            Assembled(Keep(nodes, gone), baseIds, CurrentRows(rows, gone), boxes))
    requires SupportOf(Assembled(Keep(nodes, gone), baseIds, rows, boxes))
          <= SupportOf(Assembled(Keep(nodes, gone), baseIds, CurrentRows(rows, gone), boxes))
    ensures var asAsked := Assembled(Keep(nodes, gone), baseIds, rows, boxes);
            var asRead := Assembled(Keep(nodes, gone), baseIds, CurrentRows(rows, gone), boxes);
            Extends(InputOf(asRead, SupportOf(asRead), sr), InputOf(asAsked, SupportOf(asAsked), sr))
  {
    hide Assembled, SupportOf, OneConclusionPerGroup, CurrentRows, Keep, StrengthOfGroup, HasKey, RuleOf, WritesRule;
    var kept, current := Keep(nodes, gone), CurrentRows(rows, gone);
    var asAsked, asRead := Assembled(kept, baseIds, rows, boxes), Assembled(kept, baseIds, current, boxes);
    FactsOfAssembled(kept, baseIds, rows, boxes);
    FactsOfAssembled(kept, baseIds, current, boxes);
    SupportIsKept(nodes, baseIds, rows, boxes, gone);
    forall d | d in asAsked.graph.derivations && d.body <= SupportOf(asAsked)
      ensures d in asRead.graph.derivations && d in asRead.strength && d in asAsked.strength
    {
      KeptRules(nodes, baseIds, rows, boxes, gone);
      assert d in asAsked.graph.Rules() && Shrunk(d, gone) == d;
      CurrentRules(nodes, baseIds, rows, boxes, gone, d);
      StrengthsAreOfRules(kept, baseIds, rows, boxes, d);
      StrengthsAreOfRules(kept, baseIds, current, boxes, d);
    }
  }

  /** No retracted node is supported. */
  lemma SupportIsKept(nodes: seq<NodeRow>, baseIds: set<NodeId>, rows: seq<DerivedRow>, boxes: Option<set<BoxId>>,
                      gone: set<NodeId>)
    ensures SupportOf(Assembled(Keep(nodes, gone), baseIds, rows, boxes)) !! gone
  {
    hide Assembled, Keep;
    var s := Assembled(Keep(nodes, gone), baseIds, rows, boxes);
    KeptRules(nodes, baseIds, rows, boxes, gone);
    SupportIs(s);
    SupportIsLeast(s.graph.baseFacts, s.graph.Rules());
    assert Closed(s.graph.baseFacts, s.graph.Rules(), Support(s.graph.baseFacts, s.graph.Rules()) - gone);
  }
}
