/**
 The books of the incremental oracle in src/iknos/core/truth_maintenance.py: what its rule tables,
 indices and counters hold at each point of an insertion and of a retraction.

 `Settled` is what holds between calls; `SurvivorsAreSupported` is the step that makes deletion
 sound on cycles: whatever over-deletion leaves standing is still well-founded.
 */
module SupportBooks {
  import opened TruthMaintenance

  datatype RuleId = RuleId(index: nat)

  type Index = map<NodeId, set<RuleId>>

  function IdsAt(index: Index, n: NodeId): set<RuleId> {
    if n in index then index[n] else {}
  }

  function CountAt(counts: map<NodeId, int>, n: NodeId): int {
    if n in counts then counts[n] else 0
  }

  /** The rule tables agree with one another: ids are unique, and the two indices list exactly
      the rules that use a node and the rules that derive it. */
  ghost predicate Indexed(derivs: map<RuleId, Derivation>, ids: map<Derivation, RuleId>, uses: Index, heads: Index,
                          nextId: nat)
  {
    && (forall i :: i in derivs ==> i.index < nextId && derivs[i] in ids && ids[derivs[i]] == i)
    && (forall d :: d in ids ==> ids[d] in derivs && derivs[ids[d]] == d)
    && (forall n, i :: i in IdsAt(uses, n) <==> i in derivs && n in derivs[i].body)
    && (forall n, i :: i in IdsAt(heads, n) <==> i in derivs && derivs[i].conclusion == n)
  }

  /** Every rule counts the antecedents that are not in `delivered`. */
  ghost predicate Counting(derivs: map<RuleId, Derivation>, unmet: map<RuleId, int>, delivered: set<NodeId>) {
    && unmet.Keys == derivs.Keys
    && (forall i :: i in derivs ==> unmet[i] == Unmet(derivs[i], delivered))
  }

  ghost function Firing(derivs: map<RuleId, Derivation>, unmet: map<RuleId, int>, n: NodeId): set<RuleId>
    requires unmet.Keys == derivs.Keys
  {
    set i | i in derivs && derivs[i].conclusion == n && unmet[i] == 0
  }

  /** A node's count is one if it is a base fact, plus one for each firing rule that derives
      it. Rules in `pending` have not been credited yet. */
  ghost predicate CountIs(base: set<NodeId>, derivs: map<RuleId, Derivation>, unmet: map<RuleId, int>,
                          counts: map<NodeId, int>, pending: set<RuleId>, n: NodeId)
    requires unmet.Keys == derivs.Keys
  {
    CountAt(counts, n) == (if n in base then 1 else 0) + |Firing(derivs, unmet, n) - pending|
  }

  /** A rule that misses nothing has its conclusion supported. */
  ghost predicate Fired(derivs: map<RuleId, Derivation>, unmet: map<RuleId, int>, pending: set<RuleId>,
                        supported: set<NodeId>)
    requires unmet.Keys == derivs.Keys
  {
    forall i :: i in derivs && i !in pending && unmet[i] == 0 ==> derivs[i].conclusion in supported
  }

  ghost predicate ClosedUnderRules(derivs: map<RuleId, Derivation>, s: set<NodeId>) {
    forall i :: i in derivs && derivs[i].body <= s ==> derivs[i].conclusion in s
  }

  /** What the integer of Layer A means: the number of active groundings of a node. */
  ghost function Groundings(base: set<NodeId>, rules: set<Derivation>, supported: set<NodeId>, n: NodeId): nat {
    (if n in base then 1 else 0) + |set d | d in rules && d.conclusion == n && d.body <= supported|
  }

  lemma FiringAfter(derivs: map<RuleId, Derivation>, unmet: map<RuleId, int>, i: RuleId, n: NodeId,
                    pending: set<RuleId>)
    requires unmet.Keys == derivs.Keys
    requires i in derivs && i !in pending && unmet[i] != 0
    ensures |Firing(derivs, unmet[i := unmet[i] - 1], n) - pending|
         == |Firing(derivs, unmet, n) - pending| + (if unmet[i] == 1 && derivs[i].conclusion == n then 1 else 0)
  {
    var before, after := Firing(derivs, unmet, n) - pending, Firing(derivs, unmet[i := unmet[i] - 1], n) - pending;
    if unmet[i] == 1 && derivs[i].conclusion == n {
      assert after == before + {i};
    } else {
      assert after == before;
    }
  }

  /** Every met rule has its conclusion supported, and every count is what `CountIs` says. */
  ghost predicate Credited(base: set<NodeId>, derivs: map<RuleId, Derivation>, unmet: map<RuleId, int>,
                           counts: map<NodeId, int>, pending: set<RuleId>, supported: set<NodeId>)
  {
    && unmet.Keys == derivs.Keys
    && base <= supported
    && Fired(derivs, unmet, pending, supported)
    && (forall n :: CountIs(base, derivs, unmet, counts, pending, n))
  }

  /** Decrementing one rule, and crediting its conclusion when it reaches zero, keeps the books. */
  lemma CreditAfterVisit(base: set<NodeId>, derivs: map<RuleId, Derivation>, unmet: map<RuleId, int>,
                         counts: map<NodeId, int>, supported: set<NodeId>, i: RuleId)
    requires Credited(base, derivs, unmet, counts, {}, supported)
    requires i in derivs && unmet[i] != 0
    ensures var head := derivs[i].conclusion;
            var unmet' := unmet[i := unmet[i] - 1];
            if unmet[i] == 1
            then Credited(base, derivs, unmet', counts[head := CountAt(counts, head) + 1], {}, supported + {head})
            else Credited(base, derivs, unmet', counts, {}, supported)
  {
    var head := derivs[i].conclusion;
    var unmet' := unmet[i := unmet[i] - 1];
    var counts' := if unmet[i] == 1 then counts[head := CountAt(counts, head) + 1] else counts;
    forall n
      ensures CountIs(base, derivs, unmet', counts', {}, n)
    {
      FiringAfter(derivs, unmet, i, n, {});
      assert CountIs(base, derivs, unmet, counts, {}, n);
    }
  }

  /** Halfway through telling the users of a node: those in `todo` still count it as missing. */
  ghost predicate Telling(derivs: map<RuleId, Derivation>, unmet: map<RuleId, int>, delivered: set<NodeId>,
                          todo: set<RuleId>)
  {
    && unmet.Keys == derivs.Keys
    && todo <= derivs.Keys
    && (forall i :: i in derivs ==> unmet[i] == Unmet(derivs[i], delivered) + (if i in todo then 1 else 0))
  }

  lemma TellingStarts(derivs: map<RuleId, Derivation>, ids: map<Derivation, RuleId>, uses: Index, heads: Index,
                      nextId: nat, unmet: map<RuleId, int>, before: set<NodeId>, node: NodeId)
    requires Indexed(derivs, ids, uses, heads, nextId) && Counting(derivs, unmet, before) && node !in before
    ensures Telling(derivs, unmet, before + {node}, IdsAt(uses, node))
  {
    forall i | i in derivs
      ensures unmet[i] == Unmet(derivs[i], before + {node}) + (if i in IdsAt(uses, node) then 1 else 0)
    {
      UnmetAfter(derivs[i], before, node);
    }
  }

  lemma TellingContinues(derivs: map<RuleId, Derivation>, unmet: map<RuleId, int>, delivered: set<NodeId>,
                         todo: set<RuleId>, i: RuleId)
    requires Telling(derivs, unmet, delivered, todo) && i in todo
    ensures i in derivs && i in unmet && unmet[i] != 0 && unmet.Keys == derivs.Keys
    ensures Telling(derivs, unmet[i := unmet[i] - 1], delivered, todo - {i})
    ensures unmet[i] == 1 ==> derivs[i].body <= delivered
  {
    AllMet(derivs[i], delivered);
  }

  lemma TellingEnds(derivs: map<RuleId, Derivation>, unmet: map<RuleId, int>, delivered: set<NodeId>)
    requires Telling(derivs, unmet, delivered, {})
    ensures Counting(derivs, unmet, delivered)
  {
  }

  lemma DeliveredAreSupported(supported: set<NodeId>, work: seq<NodeId>, delivered: set<NodeId>)
    requires Frontier(supported, work).Splits(delivered)
    ensures delivered <= supported
  {
  }

  lemma ClosedUnderFires(derivs: map<RuleId, Derivation>, s: set<NodeId>, i: RuleId)
    requires ClosedUnderRules(derivs, s) && i in derivs
    ensures derivs[i].body <= s ==> derivs[i].conclusion in s
  {
  }

  lemma WaitingIsNew(supported: set<NodeId>, work: seq<NodeId>, delivered: set<NodeId>)
    requires Frontier(supported, work).Splits(delivered) && work != []
    ensures work[0] !in delivered && work[0] in supported
  {
    assert work[0] in work;
  }

  lemma DrainedMeansDelivered(supported: set<NodeId>, delivered: set<NodeId>)
    requires Frontier(supported, []).Splits(delivered)
    ensures delivered == supported
  {
  }

  /** What holds between calls: the tables agree, the counts are exact, and the maintained set
      is the well-founded support of the retained graph. */
  ghost predicate Settled(base: set<NodeId>, derivs: map<RuleId, Derivation>, ids: map<Derivation, RuleId>,
                          uses: Index, heads: Index, nextId: nat, unmet: map<RuleId, int>,
                          counts: map<NodeId, int>, supported: set<NodeId>)
  {
    && Indexed(derivs, ids, uses, heads, nextId)
    && Counting(derivs, unmet, supported)
    && Credited(base, derivs, unmet, counts, {}, supported)
    && supported == Support(base, ids.Keys)
  }

  /** The support of the retained graph is closed, and grows with the graph. */
  lemma SupportIsClosedUnderRules(base: set<NodeId>, derivs: map<RuleId, Derivation>, ids: map<Derivation, RuleId>,
                                  uses: Index, heads: Index, nextId: nat)
    requires Indexed(derivs, ids, uses, heads, nextId)
    ensures ClosedUnderRules(derivs, Support(base, ids.Keys))
    ensures base <= Support(base, ids.Keys)
  {
    SupportIsLeast(base, ids.Keys);
  }

  /** Once everything is delivered, exact books inside the support leave nothing out of it. */
  lemma SettlesAt(base: set<NodeId>, derivs: map<RuleId, Derivation>, ids: map<Derivation, RuleId>, uses: Index,
                  heads: Index, nextId: nat, unmet: map<RuleId, int>, counts: map<NodeId, int>, supported: set<NodeId>)
    requires Indexed(derivs, ids, uses, heads, nextId) && Counting(derivs, unmet, supported)
    requires Credited(base, derivs, unmet, counts, {}, supported)
    requires supported <= Support(base, ids.Keys)
    ensures Settled(base, derivs, ids, uses, heads, nextId, unmet, counts, supported)
  {
    forall i | i in derivs && derivs[i].body <= supported
      ensures derivs[i].conclusion in supported
    {
      AllMet(derivs[i], supported);
    }
    LeastIsSupport(base, ids.Keys, supported);
  }

  /** A rule registered but not yet credited changes no count. */
  lemma RegisterKeepsBooks(base: set<NodeId>, derivs: map<RuleId, Derivation>, unmet: map<RuleId, int>,
                           counts: map<NodeId, int>, pending: set<RuleId>, supported: set<NodeId>,
                           i: RuleId, d: Derivation, missing: int)
    requires Credited(base, derivs, unmet, counts, pending, supported) && i !in derivs
    ensures Credited(base, derivs[i := d], unmet[i := missing], counts, pending + {i}, supported)
  {
    var derivs', unmet', pending' := derivs[i := d], unmet[i := missing], pending + {i};
    assert unmet'.Keys == derivs'.Keys;
    forall n
      ensures CountIs(base, derivs', unmet', counts, pending', n)
    {
      assert CountIs(base, derivs, unmet, counts, pending, n);
      assert Firing(derivs', unmet', n) - pending' == Firing(derivs, unmet, n) - pending;
    }
  }

  lemma BaseFactKeepsBooks(base: set<NodeId>, derivs: map<RuleId, Derivation>, unmet: map<RuleId, int>,
                           counts: map<NodeId, int>, pending: set<RuleId>, supported: set<NodeId>, fact: NodeId)
    requires Credited(base, derivs, unmet, counts, pending, supported) && fact !in base
    ensures Credited(base + {fact}, derivs, unmet, counts[fact := CountAt(counts, fact) + 1], pending,
                     supported + {fact})
  {
    hide Firing;
    var base', counts' := base + {fact}, counts[fact := CountAt(counts, fact) + 1];
    forall n
      ensures CountIs(base', derivs, unmet, counts', pending, n)
    {
      assert CountIs(base, derivs, unmet, counts, pending, n);
    }
  }

  /** Taking a rule off the pending list credits its conclusion exactly when it is met. */
  lemma CreditPending(base: set<NodeId>, derivs: map<RuleId, Derivation>, unmet: map<RuleId, int>,
                      counts: map<NodeId, int>, pending: set<RuleId>, supported: set<NodeId>, i: RuleId)
    requires Credited(base, derivs, unmet, counts, pending, supported) && i in derivs && i in pending
    ensures var head := derivs[i].conclusion;
            if unmet[i] == 0
            then Credited(base, derivs, unmet, counts[head := CountAt(counts, head) + 1], pending - {i},
                          supported + {head})
            else Credited(base, derivs, unmet, counts, pending - {i}, supported)
  {
    var head := derivs[i].conclusion;
    var counts' := if unmet[i] == 0 then counts[head := CountAt(counts, head) + 1] else counts;
    forall n
      ensures CountIs(base, derivs, unmet, counts', pending - {i}, n)
    {
      assert CountIs(base, derivs, unmet, counts, pending, n);
      var before, after := Firing(derivs, unmet, n) - pending, Firing(derivs, unmet, n) - (pending - {i});
      if unmet[i] == 0 && n == head {
        assert after == before + {i} && i !in before;
      } else {
        assert after == before;
      }
    }
  }

  ghost predicate UsesAdded(uses: Index, uses': Index, body: set<NodeId>, i: RuleId) {
    forall n :: IdsAt(uses', n) == if n in body then IdsAt(uses, n) + {i} else IdsAt(uses, n)
  }

  lemma RegisterIndexed(derivs: map<RuleId, Derivation>, ids: map<Derivation, RuleId>, uses: Index, heads: Index,
                        nextId: nat, d: Derivation, i: RuleId, uses': Index, heads': Index)
    requires Indexed(derivs, ids, uses, heads, nextId) && d !in ids && i == RuleId(nextId)
    requires UsesAdded(uses, uses', d.body, i)
    requires heads' == heads[d.conclusion := IdsAt(heads, d.conclusion) + {i}]
    ensures i !in derivs
    ensures Indexed(derivs[i := d], ids[d := i], uses', heads', nextId + 1)
  {
    assert forall n :: IdsAt(heads', n) == if n == d.conclusion then IdsAt(heads, n) + {i} else IdsAt(heads, n);
    var derivs' := derivs[i := d];
    forall n, k
      ensures k in IdsAt(uses', n) <==> k in derivs' && n in derivs'[k].body
    {
      assert IdsAt(uses', n) == if n in d.body then IdsAt(uses, n) + {i} else IdsAt(uses, n);
    }
  }

  lemma RegisterCounts(derivs: map<RuleId, Derivation>, unmet: map<RuleId, int>, baseline: set<NodeId>,
                       i: RuleId, d: Derivation)
    requires Counting(derivs, unmet, baseline) && i !in derivs
    ensures Counting(derivs[i := d], unmet[i := Unmet(d, baseline)], baseline)
  {
  }

  /** `pending` holds the ids of the rules in `todo`. */
  ghost predicate IdsOf(derivs: map<RuleId, Derivation>, todo: set<Derivation>, pending: set<RuleId>) {
    forall i :: i in pending <==> i in derivs && derivs[i] in todo
  }

  lemma IdsOfNone(derivs: map<RuleId, Derivation>)
    ensures IdsOf(derivs, {}, {})
  {
  }

  lemma IdsOfMore(derivs: map<RuleId, Derivation>, ids: map<Derivation, RuleId>, uses: Index, heads: Index,
                  nextId: nat, todo: set<Derivation>, pending: set<RuleId>, i: RuleId, d: Derivation)
    requires Indexed(derivs, ids, uses, heads, nextId) && d !in ids && i !in derivs
    requires IdsOf(derivs, todo, pending)
    ensures IdsOf(derivs[i := d], todo + {d}, pending + {i})
  {
  }

  lemma IdsOfLess(derivs: map<RuleId, Derivation>, ids: map<Derivation, RuleId>, uses: Index, heads: Index,
                  nextId: nat, todo: set<Derivation>, pending: set<RuleId>, d: Derivation)
    requires Indexed(derivs, ids, uses, heads, nextId) && IdsOf(derivs, todo, pending)
    requires d in todo && d in ids
    ensures ids[d] in derivs && derivs[ids[d]] == d && ids[d] in pending
    ensures IdsOf(derivs, todo - {d}, pending - {ids[d]})
  {
  }

  lemma NothingPending(derivs: map<RuleId, Derivation>, pending: set<RuleId>)
    requires IdsOf(derivs, {}, pending)
    ensures pending == {}
  {
  }

  lemma SettledMeans(base: set<NodeId>, derivs: map<RuleId, Derivation>, ids: map<Derivation, RuleId>,
                     uses: Index, heads: Index, nextId: nat, unmet: map<RuleId, int>,
                     counts: map<NodeId, int>, supported: set<NodeId>)
    requires Settled(base, derivs, ids, uses, heads, nextId, unmet, counts, supported)
    ensures Indexed(derivs, ids, uses, heads, nextId) && Counting(derivs, unmet, supported)
    ensures Credited(base, derivs, unmet, counts, {}, supported)
    ensures supported == Support(base, ids.Keys)
  {
  }

  lemma CountedRule(derivs: map<RuleId, Derivation>, unmet: map<RuleId, int>, delivered: set<NodeId>, i: RuleId)
    requires Counting(derivs, unmet, delivered) && i in derivs
    ensures i in unmet && (unmet[i] == 0 <==> derivs[i].body <= delivered)
  {
    AllMet(derivs[i], delivered);
  }

  /** The rule tables before and after `removed` is unregistered. */
  ghost predicate Kept(derivs0: map<RuleId, Derivation>, unmet0: map<RuleId, int>, removed: set<Derivation>,
                       derivs: map<RuleId, Derivation>, unmet: map<RuleId, int>)
  {
    && unmet.Keys == derivs.Keys && unmet0.Keys == derivs0.Keys
    && (forall i :: i in derivs <==> i in derivs0 && derivs0[i] !in removed)
    && (forall i :: i in derivs ==> derivs[i] == derivs0[i] && unmet[i] == unmet0[i])
  }

  /** `seeds` has the conclusion of every removed rule that was firing. */
  ghost predicate Seeded(derivs0: map<RuleId, Derivation>, unmet0: map<RuleId, int>, removed: set<Derivation>,
                         supported: set<NodeId>, seeds: set<NodeId>)
    requires unmet0.Keys == derivs0.Keys
  {
    && seeds <= supported
    && (forall i :: i in derivs0 && derivs0[i] in removed && unmet0[i] == 0 && derivs0[i].conclusion in supported
          ==> derivs0[i].conclusion in seeds)
  }

  ghost predicate UsesRemoved(uses: Index, uses': Index, body: set<NodeId>, i: RuleId) {
    forall n :: IdsAt(uses', n) == if n in body then IdsAt(uses, n) - {i} else IdsAt(uses, n)
  }

  lemma UnregisterIndexed(derivs: map<RuleId, Derivation>, ids: map<Derivation, RuleId>, uses: Index, heads: Index,
                          nextId: nat, d: Derivation, uses': Index, heads': Index)
    requires Indexed(derivs, ids, uses, heads, nextId) && d in ids
    requires UsesRemoved(uses, uses', d.body, ids[d])
    requires heads' == heads[d.conclusion := IdsAt(heads, d.conclusion) - {ids[d]}]
    ensures ids[d] in derivs && derivs[ids[d]] == d
    ensures Indexed(derivs - {ids[d]}, ids - {d}, uses', heads', nextId)
  {
    var i := ids[d];
    var derivs' := derivs - {i};
    assert forall n :: IdsAt(heads', n) == if n == d.conclusion then IdsAt(heads, n) - {i} else IdsAt(heads, n);
    forall n, k
      ensures k in IdsAt(uses', n) <==> k in derivs' && n in derivs'[k].body
    {
      assert IdsAt(uses', n) == if n in d.body then IdsAt(uses, n) - {i} else IdsAt(uses, n);
    }
  }

  lemma KeptLess(derivs0: map<RuleId, Derivation>, unmet0: map<RuleId, int>, removed: set<Derivation>,
                 derivs: map<RuleId, Derivation>, unmet: map<RuleId, int>, ids: map<Derivation, RuleId>,
                 uses: Index, heads: Index, nextId: nat, d: Derivation)
    requires Kept(derivs0, unmet0, removed, derivs, unmet)
    requires Indexed(derivs, ids, uses, heads, nextId) && d in ids
    ensures ids[d] in unmet
    ensures Kept(derivs0, unmet0, removed + {d}, derivs - {ids[d]}, unmet - {ids[d]})
  {
  }

  lemma SeededMore(derivs0: map<RuleId, Derivation>, unmet0: map<RuleId, int>, removed: set<Derivation>,
                   supported: set<NodeId>, seeds: set<NodeId>, derivs: map<RuleId, Derivation>,
                   unmet: map<RuleId, int>, ids: map<Derivation, RuleId>, uses: Index, heads: Index, nextId: nat,
                   d: Derivation)
    requires Kept(derivs0, unmet0, removed, derivs, unmet) && Seeded(derivs0, unmet0, removed, supported, seeds)
    requires Indexed(derivs, ids, uses, heads, nextId) && d in ids && d !in removed
    ensures ids[d] in unmet
    ensures Seeded(derivs0, unmet0, removed + {d}, supported,
                   if unmet[ids[d]] == 0 && d.conclusion in supported then seeds + {d.conclusion} else seeds)
  {
    assert forall i :: i in derivs0 && derivs0[i] == d ==> i in derivs && i == ids[d];
  }

  /** `gone` reaches the supported conclusion of every rule that leans on it, `stack` aside. */
  ghost predicate Spreads(derivs: map<RuleId, Derivation>, supported: set<NodeId>, gone: set<NodeId>,
                          stack: seq<NodeId>)
  {
    && gone <= supported
    && (forall n :: n in stack ==> n in supported)
    && (forall i :: i in derivs && derivs[i].conclusion in supported && !(derivs[i].body !! gone)
          ==> derivs[i].conclusion in gone || derivs[i].conclusion in stack)
  }

  ghost predicate Covers(gone: set<NodeId>, stack: seq<NodeId>, seeds: set<NodeId>) {
    forall n :: n in seeds ==> n in gone || n in stack
  }

  lemma SkipDeleted(derivs: map<RuleId, Derivation>, supported: set<NodeId>, gone: set<NodeId>,
                    stack: seq<NodeId>, seeds: set<NodeId>)
    requires stack != [] && stack[|stack| - 1] in gone
    requires Spreads(derivs, supported, gone, stack) && Covers(gone, stack, seeds)
    ensures Spreads(derivs, supported, gone, stack[..|stack| - 1]) && Covers(gone, stack[..|stack| - 1], seeds)
  {
    assert stack == stack[..|stack| - 1] + [stack[|stack| - 1]];
  }

  /** `heads'` are the supported conclusions of the rules that use `node`. */
  ghost predicate HeadsOf(derivs: map<RuleId, Derivation>, supported: set<NodeId>, gone: set<NodeId>,
                          node: NodeId, pushed: seq<NodeId>)
  {
    && (forall n :: n in pushed ==> n in supported)
    && (forall i :: i in derivs && node in derivs[i].body && derivs[i].conclusion in supported
          ==> derivs[i].conclusion in gone || derivs[i].conclusion in pushed)
  }

  lemma DeleteOne(derivs: map<RuleId, Derivation>, supported: set<NodeId>, gone: set<NodeId>,
                  stack: seq<NodeId>, seeds: set<NodeId>, pushed: seq<NodeId>)
    requires stack != []
    requires Spreads(derivs, supported, gone, stack) && Covers(gone, stack, seeds)
    requires HeadsOf(derivs, supported, gone + {stack[|stack| - 1]}, stack[|stack| - 1], pushed)
    ensures var rest := stack[..|stack| - 1] + pushed;
            Spreads(derivs, supported, gone + {stack[|stack| - 1]}, rest)
            && Covers(gone + {stack[|stack| - 1]}, rest, seeds)
  {
    var node := stack[|stack| - 1];
    assert stack == stack[..|stack| - 1] + [node];
    var rest := stack[..|stack| - 1] + pushed;
    forall i | i in derivs && derivs[i].conclusion in supported && !(derivs[i].body !! gone + {node})
      ensures derivs[i].conclusion in gone + {node} || derivs[i].conclusion in rest
    {
      if node !in derivs[i].body {
        var a :| a in derivs[i].body && a in gone + {node};
        assert a in gone;
      }
    }
  }

  /** What over-deletion leaves standing is grounded without the removed facts and rules. */
  lemma SurvivorsAreSupported(base0: set<NodeId>, derivs0: map<RuleId, Derivation>, ids0: map<Derivation, RuleId>,
                              unmet0: map<RuleId, int>, supported: set<NodeId>,
                              base: set<NodeId>, derivs: map<RuleId, Derivation>, unmet: map<RuleId, int>,
                              removed: set<Derivation>, gone: set<NodeId>)
    requires supported == Support(base0, ids0.Keys) && base <= base0 && base0 - base <= gone
    requires forall d :: d in ids0 ==> ids0[d] in derivs0 && derivs0[ids0[d]] == d
    requires Counting(derivs0, unmet0, supported)
    requires Kept(derivs0, unmet0, removed, derivs, unmet)
    requires Seeded(derivs0, unmet0, removed, supported, gone)
    requires Spreads(derivs, supported, gone, [])
    ensures supported - gone <= Support(base, ids0.Keys - removed)
  {
    hide Support, Unmet;
    var still := Support(base, ids0.Keys - removed);
    SupportMonotone(base, ids0.Keys - removed, base0, ids0.Keys);
    SupportIsLeast(base, ids0.Keys - removed);
    SupportIsLeast(base0, ids0.Keys);
    forall d | d in ids0.Keys && d.body <= gone + still
      ensures d.conclusion in gone + still
    {
      var i := ids0[d];
      assert d.body <= supported && d.conclusion in supported;
      AllMet(d, supported);
      if d !in removed {
        assert i in derivs;
        if d.body !! gone {
          assert d.body <= still;
        }
      }
    }
    assert Closed(base0, ids0.Keys, gone + still);
  }

  /** The books while the nodes of `todo` wait to be re-derived, with their counts at zero. */
  ghost predicate Rebuilding(base: set<NodeId>, derivs: map<RuleId, Derivation>, unmet: map<RuleId, int>,
                             counts: map<NodeId, int>, todo: set<NodeId>, supported: set<NodeId>)
  {
    && unmet.Keys == derivs.Keys
    && base - todo <= supported
    && supported !! todo
    && (forall i :: i in derivs && unmet[i] == 0 && derivs[i].conclusion !in todo ==> derivs[i].conclusion in supported)
    && (forall n :: n !in todo ==> CountIs(base, derivs, unmet, counts, {}, n))
    && (forall n :: n in todo ==> CountAt(counts, n) == 0)
  }

  /** Outside the torn-down region no count changes: a rule firing before and gone now, or
      leaning on the region, would have pulled its conclusion into it. */
  lemma FiringOutside(derivs0: map<RuleId, Derivation>, unmet0: map<RuleId, int>, supported: set<NodeId>,
                      derivs: map<RuleId, Derivation>, unmet: map<RuleId, int>, unmet': map<RuleId, int>,
                      removed: set<Derivation>, gone: set<NodeId>, n: NodeId)
    requires Counting(derivs0, unmet0, supported) && Fired(derivs0, unmet0, {}, supported)
    requires Kept(derivs0, unmet0, removed, derivs, unmet)
    requires Seeded(derivs0, unmet0, removed, supported, gone) && Spreads(derivs, supported, gone, [])
    requires Counting(derivs, unmet', supported - gone)
    requires n !in gone
    ensures Firing(derivs, unmet', n) == Firing(derivs0, unmet0, n)
    ensures Firing(derivs, unmet', n) != {} ==> n in supported - gone
  {
    hide Unmet;
    forall i
      ensures i in Firing(derivs, unmet', n) <==> i in Firing(derivs0, unmet0, n)
    {
      if i in derivs {
        AllMet(derivs[i], supported);
        AllMet(derivs[i], supported - gone);
        assert derivs0[i] == derivs[i] && unmet0[i] == unmet[i];
      }
    }
  }

  lemma RebuildingStarts(base0: set<NodeId>, derivs0: map<RuleId, Derivation>, unmet0: map<RuleId, int>,
                         counts0: map<NodeId, int>, supported: set<NodeId>,
                         base: set<NodeId>, derivs: map<RuleId, Derivation>, unmet: map<RuleId, int>,
                         unmet': map<RuleId, int>, counts: map<NodeId, int>,
                         removed: set<Derivation>, gone: set<NodeId>)
    requires Counting(derivs0, unmet0, supported) && Credited(base0, derivs0, unmet0, counts0, {}, supported)
    requires base <= base0 && base0 - base <= gone
    requires Kept(derivs0, unmet0, removed, derivs, unmet)
    requires Seeded(derivs0, unmet0, removed, supported, gone) && Spreads(derivs, supported, gone, [])
    requires Counting(derivs, unmet', supported - gone)
    requires forall n :: CountAt(counts, n) == if n in gone then 0 else CountAt(counts0, n)
    ensures Rebuilding(base, derivs, unmet', counts, gone, supported - gone)
  {
    hide Counting, Kept, Seeded, Spreads, Firing, CountAt;
    CountingKeys(derivs, unmet', supported - gone);
    CountingKeys(derivs0, unmet0, supported);
    forall n | n !in gone
      ensures CountIs(base, derivs, unmet', counts, {}, n)
    {
      FiringOutside(derivs0, unmet0, supported, derivs, unmet, unmet', removed, gone, n);
      assert CountIs(base0, derivs0, unmet0, counts0, {}, n);
    }
    forall i | i in derivs && unmet'[i] == 0 && derivs[i].conclusion !in gone
      ensures derivs[i].conclusion in supported - gone
    {
      var n := derivs[i].conclusion;
      FiringOutside(derivs0, unmet0, supported, derivs, unmet, unmet', removed, gone, n);
      FiringHas(derivs, unmet', i);
    }
  }

  lemma CountingKeys(derivs: map<RuleId, Derivation>, unmet: map<RuleId, int>, delivered: set<NodeId>)
    requires Counting(derivs, unmet, delivered)
    ensures unmet.Keys == derivs.Keys
  {
  }

  lemma FiringHas(derivs: map<RuleId, Derivation>, unmet: map<RuleId, int>, i: RuleId)
    requires unmet.Keys == derivs.Keys && i in derivs && unmet[i] == 0
    ensures i in Firing(derivs, unmet, derivs[i].conclusion)
  {
  }

  /** Re-deriving one node restores its count and, if it still has a grounding, its support. */
  lemma RebuiltOne(base: set<NodeId>, derivs: map<RuleId, Derivation>, unmet: map<RuleId, int>,
                   counts: map<NodeId, int>, todo: set<NodeId>, supported: set<NodeId>, node: NodeId,
                   counts': map<NodeId, int>, supported': set<NodeId>)
    requires Rebuilding(base, derivs, unmet, counts, todo, supported) && node in todo
    requires CountIs(base, derivs, unmet, counts', {}, node)
    requires forall n :: n != node ==> CountAt(counts', n) == CountAt(counts, n)
    requires supported' == if CountAt(counts', node) == 0 then supported else supported + {node}
    ensures Rebuilding(base, derivs, unmet, counts', todo - {node}, supported')
  {
    var rest := todo - {node};
    forall i | i in derivs && unmet[i] == 0 && derivs[i].conclusion !in rest
      ensures derivs[i].conclusion in supported'
    {
      FiringHas(derivs, unmet, i);
    }
    hide Firing;
    forall n | n !in rest
      ensures CountIs(base, derivs, unmet, counts', {}, n)
    {
      assert n != node ==> CountIs(base, derivs, unmet, counts, {}, n);
    }
  }

  lemma RebuildingEnds(base: set<NodeId>, derivs: map<RuleId, Derivation>, unmet: map<RuleId, int>,
                       counts: map<NodeId, int>, supported: set<NodeId>)
    requires Rebuilding(base, derivs, unmet, counts, {}, supported)
    ensures Credited(base, derivs, unmet, counts, {}, supported)
  {
    hide CountIs;
  }

  /** Halfway through the rules that derive `node`: those in `todo` are not counted yet. */
  ghost predicate Regrounding(base: set<NodeId>, derivs: map<RuleId, Derivation>, unmet: map<RuleId, int>,
                              counts0: map<NodeId, int>, counts: map<NodeId, int>, todo: set<RuleId>, node: NodeId)
  {
    && unmet.Keys == derivs.Keys
    && CountIs(base, derivs, unmet, counts, todo, node)
    && (forall n :: n != node ==> CountAt(counts, n) == CountAt(counts0, n))
  }

  lemma RegroundingStarts(base: set<NodeId>, derivs: map<RuleId, Derivation>, ids: map<Derivation, RuleId>,
                          uses: Index, heads: Index, nextId: nat, unmet: map<RuleId, int>,
                          counts: map<NodeId, int>, node: NodeId)
    requires Indexed(derivs, ids, uses, heads, nextId) && unmet.Keys == derivs.Keys
    requires CountAt(counts, node) == 0
    ensures Regrounding(base, derivs, unmet, counts,
                        if node in base then counts[node := CountAt(counts, node) + 1] else counts,
                        IdsAt(heads, node), node)
  {
    assert Firing(derivs, unmet, node) - IdsAt(heads, node) == {};
  }

  lemma RegroundingContinues(base: set<NodeId>, derivs: map<RuleId, Derivation>, ids: map<Derivation, RuleId>,
                             uses: Index, heads: Index, nextId: nat, unmet: map<RuleId, int>,
                             counts0: map<NodeId, int>, counts: map<NodeId, int>, todo: set<RuleId>, node: NodeId,
                             i: RuleId)
    requires Indexed(derivs, ids, uses, heads, nextId)
    requires Regrounding(base, derivs, unmet, counts0, counts, todo, node)
    requires i in todo && todo <= IdsAt(heads, node)
    ensures i in derivs && i in unmet && derivs[i].conclusion == node && CountAt(counts, node) >= 0
    ensures Regrounding(base, derivs, unmet, counts0,
                        if unmet[i] == 0 then counts[node := CountAt(counts, node) + 1] else counts,
                        todo - {i}, node)
  {
    HeadIs(derivs, ids, uses, heads, nextId, node, i);
    hide Indexed, IdsAt;
    var rest := todo - {i};
    var before, after := Firing(derivs, unmet, node) - todo, Firing(derivs, unmet, node) - rest;
    if unmet[i] == 0 {
      assert after == before + {i} && i !in before;
    } else {
      assert after == before;
    }
    hide Firing;
    assert CountIs(base, derivs, unmet, if unmet[i] == 0 then counts[node := CountAt(counts, node) + 1] else counts,
                   rest, node);
  }

  lemma HeadIs(derivs: map<RuleId, Derivation>, ids: map<Derivation, RuleId>, uses: Index, heads: Index,
               nextId: nat, node: NodeId, i: RuleId)
    requires Indexed(derivs, ids, uses, heads, nextId) && i in IdsAt(heads, node)
    ensures i in derivs && derivs[i].conclusion == node
  {
  }

  /** `affected` has every rule with a torn-down antecedent. */
  ghost predicate Affected(derivs: map<RuleId, Derivation>, gone: set<NodeId>, affected: set<RuleId>) {
    && affected <= derivs.Keys
    && (forall i :: i in derivs && !(derivs[i].body !! gone) ==> i in affected)
  }

  lemma AffectedMore(derivs: map<RuleId, Derivation>, ids: map<Derivation, RuleId>, uses: Index, heads: Index,
                     nextId: nat, gone: set<NodeId>, affected: set<RuleId>, node: NodeId)
    requires Indexed(derivs, ids, uses, heads, nextId) && Affected(derivs, gone, affected)
    ensures Affected(derivs, gone + {node}, affected + IdsAt(uses, node))
  {
    forall i | i in derivs && !(derivs[i].body !! gone + {node})
      ensures i in affected + IdsAt(uses, node)
    {
      if node !in derivs[i].body {
        var a :| a in derivs[i].body && a in gone + {node};
        assert a in gone;
      }
    }
  }

  ghost predicate CountingExcept(derivs: map<RuleId, Derivation>, unmet: map<RuleId, int>, delivered: set<NodeId>,
                                 stale: set<RuleId>)
  {
    && unmet.Keys == derivs.Keys
    && stale <= derivs.Keys
    && (forall i :: i in derivs && i !in stale ==> unmet[i] == Unmet(derivs[i], delivered))
  }

  lemma StaleAfterDeletion(derivs: map<RuleId, Derivation>, unmet: map<RuleId, int>, supported: set<NodeId>,
                           gone: set<NodeId>, affected: set<RuleId>)
    requires Counting(derivs, unmet, supported) && Affected(derivs, gone, affected)
    ensures CountingExcept(derivs, unmet, supported - gone, affected)
  {
    forall i | i in derivs && i !in affected
      ensures unmet[i] == Unmet(derivs[i], supported - gone)
    {
      assert derivs[i].body - (supported - gone) == derivs[i].body - supported;
    }
  }

  lemma RecountOne(derivs: map<RuleId, Derivation>, unmet: map<RuleId, int>, delivered: set<NodeId>,
                   stale: set<RuleId>, i: RuleId)
    requires CountingExcept(derivs, unmet, delivered, stale) && i in stale
    ensures i in derivs
    ensures CountingExcept(derivs, unmet[i := Unmet(derivs[i], delivered)], delivered, stale - {i})
  {
  }

  lemma NothingStale(derivs: map<RuleId, Derivation>, unmet: map<RuleId, int>, delivered: set<NodeId>)
    requires CountingExcept(derivs, unmet, delivered, {})
    ensures Counting(derivs, unmet, delivered)
  {
  }

  lemma NothingAffected(derivs: map<RuleId, Derivation>)
    ensures Affected(derivs, {}, {})
  {
  }
}
