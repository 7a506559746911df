/**
 The incremental Layer A oracle of src/iknos/core/truth_maintenance.py: support counts,
 semi-naive insertion, and Delete-Rederive retraction, kept across a series of graphs.

 The theorem is `IncrementalOracle.Apply`: after any series of snapshots the maintained set
 is the well-founded support of the last one, and every count is the number of active
 groundings, cycles or no cycles.
 */
module IncrementalSupport {
  import opened Sets
  import opened TruthMaintenance
  import opened SupportBooks

  class IncrementalOracle {
    var base: set<NodeId>
    var derivs: map<RuleId, Derivation>
    var ids: map<Derivation, RuleId>
    var nextId: nat
    var uses: Index
    var heads: Index
    var unmet: map<RuleId, int>
    var supportCount: map<NodeId, int>
    var supported: set<NodeId>

    /** Visits one rule that uses a newly delivered node. */
    method VisitRule(i: RuleId, work: seq<NodeId>, ghost delivered: set<NodeId>)
      returns (work': seq<NodeId>)
      requires i in derivs && unmet.Keys == derivs.Keys
      requires Credited(base, derivs, unmet, supportCount, {}, supported)
      requires Frontier(supported, work).Splits(delivered)
      requires unmet[i] != 0
      modifies this`unmet, this`supportCount, this`supported
      ensures unmet == old(unmet)[i := old(unmet)[i] - 1]
      ensures Credited(base, derivs, unmet, supportCount, {}, supported)
      ensures Frontier(supported, work').Splits(delivered)
      ensures supported == if unmet[i] == 0 then old(supported) + {derivs[i].conclusion} else old(supported)
    {
      hide Credited;
      CreditAfterVisit(base, derivs, unmet, supportCount, supported, i);
      work' := work;
      unmet := unmet[i := unmet[i] - 1];
      if unmet[i] == 0 {
        work' := Credit(derivs[i].conclusion, work, delivered);
      }
    }

    /** Tells every rule that uses `node`. */
    method Notify(node: NodeId, work: seq<NodeId>, ghost before: set<NodeId>, ghost all: set<NodeId>)
      returns (work': seq<NodeId>)
      requires Indexed(derivs, ids, uses, heads, nextId) && Counting(derivs, unmet, before) && node !in before
      requires Credited(base, derivs, unmet, supportCount, {}, supported)
      requires Frontier(supported, work).Splits(before + {node})
      requires supported <= all && ClosedUnderRules(derivs, all)
      modifies this`unmet, this`supportCount, this`supported
      ensures Counting(derivs, unmet, before + {node})
      ensures Credited(base, derivs, unmet, supportCount, {}, supported)
      ensures Frontier(supported, work').Splits(before + {node})
      ensures old(supported) <= supported <= all
    {
      hide *;
      ghost var after := before + {node};
      work' := work;
      var todo := IdsAt(uses, node);
      TellingStarts(derivs, ids, uses, heads, nextId, unmet, before, node);
      while todo != {}
        invariant Telling(derivs, unmet, after, todo)
        invariant Credited(base, derivs, unmet, supportCount, {}, supported)
        invariant Frontier(supported, work').Splits(after)
        invariant old(supported) <= supported <= all
        decreases todo
      {
        var i :| i in todo;
        TellingContinues(derivs, unmet, after, todo, i);
        DeliveredAreSupported(supported, work', after);
        ClosedUnderFires(derivs, all, i);
        todo := todo - {i};
        work' := VisitRule(i, work', after);
      }
      TellingEnds(derivs, unmet, after);
    }

    /** Monotone forward propagation, shared by insertion and re-derivation: every queued node
        is delivered to the rules that use it, once. */
    method Cascade(queued: seq<NodeId>, ghost delivered0: set<NodeId>, ghost all: set<NodeId>)
      requires Indexed(derivs, ids, uses, heads, nextId) && Counting(derivs, unmet, delivered0)
      requires Credited(base, derivs, unmet, supportCount, {}, supported)
      requires Frontier(supported, queued).Splits(delivered0)
      requires supported <= all && ClosedUnderRules(derivs, all)
      modifies this`unmet, this`supportCount, this`supported
      ensures Counting(derivs, unmet, supported)
      ensures Credited(base, derivs, unmet, supportCount, {}, supported)
      ensures old(supported) <= supported <= all
    {
      hide *;
      ghost var delivered := delivered0;
      var work := queued;
      while work != []
        invariant Counting(derivs, unmet, delivered)
        invariant Credited(base, derivs, unmet, supportCount, {}, supported)
        invariant Frontier(supported, work).Splits(delivered)
        invariant old(supported) <= supported <= all
        decreases all - delivered
      {
        var node := work[0];
        Frontier(supported, work).PopSplits(delivered);
        WaitingIsNew(supported, work, delivered);
        work := Notify(node, work[1..], delivered, all);
        delivered := delivered + {node};
      }
      DrainedMeansDelivered(supported, delivered);
    }

    /** Gives a new rule its id, indexes it, and counts what it misses against `baseline`. */
    method Register(d: Derivation, baseline: set<NodeId>) returns (i: RuleId)
      requires Indexed(derivs, ids, uses, heads, nextId) && d !in ids
      modifies this`ids, this`derivs, this`nextId, this`uses, this`heads, this`unmet
      ensures i !in old(derivs)
      ensures derivs == old(derivs)[i := d] && ids == old(ids)[d := i]
      ensures unmet == old(unmet)[i := Unmet(d, baseline)]
      ensures Indexed(derivs, ids, uses, heads, nextId)
    {
      hide *;
      i := RuleId(nextId);
      var heads' := heads[d.conclusion := IdsAt(heads, d.conclusion) + {i}];
      var uses' := AddUses(uses, d.body, i);
      RegisterIndexed(derivs, ids, uses, heads, nextId, d, i, uses', heads');
      nextId := nextId + 1;
      ids := ids[d := i];
      derivs := derivs[i := d];
      heads := heads';
      uses := uses';
      unmet := unmet[i := Unmet(d, baseline)];
    }

    /** Registers a batch of rules against the support before the batch. None is credited yet. */
    method RegisterAll(added: set<Derivation>) returns (ghost pending: set<RuleId>)
      requires Indexed(derivs, ids, uses, heads, nextId) && Counting(derivs, unmet, supported)
      requires Credited(base, derivs, unmet, supportCount, {}, supported)
      requires added !! ids.Keys
      modifies this`ids, this`derivs, this`nextId, this`uses, this`heads, this`unmet
      ensures Indexed(derivs, ids, uses, heads, nextId) && Counting(derivs, unmet, supported)
      ensures Credited(base, derivs, unmet, supportCount, pending, supported)
      ensures IdsOf(derivs, added, pending) && ids.Keys == old(ids.Keys) + added
    {
      hide *;
      pending := {};
      IdsOfNone(derivs);
      var todo := added;
      ghost var done, known := {}, ids.Keys;
      while todo != {}
        invariant todo !! done && todo + done == added
        invariant ids.Keys == known + done
        invariant Indexed(derivs, ids, uses, heads, nextId) && Counting(derivs, unmet, supported)
        invariant Credited(base, derivs, unmet, supportCount, pending, supported)
        invariant IdsOf(derivs, done, pending)
        decreases todo
      {
        var d :| d in todo;
        todo := todo - {d};
        ghost var derivs0, unmet0 := derivs, unmet;
        ghost var ids0, uses0, heads0, nextId0 := ids, uses, heads, nextId;
        var i := Register(d, supported);
        RegisterCounts(derivs0, unmet0, supported, i, d);
        RegisterKeepsBooks(base, derivs0, unmet0, supportCount, pending, supported, i, d, Unmet(d, supported));
        IdsOfMore(derivs0, ids0, uses0, heads0, nextId0, done, pending, i, d);
        pending := pending + {i};
        done := done + {d};
      }
    }

    method AddBaseFacts(added: set<NodeId>, ghost pending: set<RuleId>, ghost all: set<NodeId>)
      returns (work: seq<NodeId>)
      requires Credited(base, derivs, unmet, supportCount, pending, supported)
      requires added !! base && added <= all && supported <= all
      modifies this`base, this`supportCount, this`supported
      ensures base == old(base) + added
      ensures Credited(base, derivs, unmet, supportCount, pending, supported)
      ensures Frontier(supported, work).Splits(old(supported))
      ensures old(supported) <= supported <= all
    {
      work := [];
      assert Frontier(supported, work).Splits(supported);
      hide *;
      var todo := added;
      while todo != {}
        invariant todo <= added && base == old(base) + (added - todo)
        invariant Credited(base, derivs, unmet, supportCount, pending, supported)
        invariant Frontier(supported, work).Splits(old(supported))
        invariant old(supported) <= supported <= all
        decreases todo
      {
        var fact :| fact in todo;
        todo := todo - {fact};
        BaseFactKeepsBooks(base, derivs, unmet, supportCount, pending, supported, fact);
        base := base + {fact};
        work := Credit(fact, work, old(supported));
      }
    }

    /** One more grounding for a node, which is queued if it had none. */
    method Credit(n: NodeId, work: seq<NodeId>, ghost delivered: set<NodeId>) returns (work': seq<NodeId>)
      requires Frontier(supported, work).Splits(delivered)
      modifies this`supportCount, this`supported
      ensures supportCount == old(supportCount)[n := CountAt(old(supportCount), n) + 1]
      ensures supported == old(supported) + {n}
      ensures Frontier(supported, work').Splits(delivered)
    {
      work' := work;
      supportCount := supportCount[n := CountAt(supportCount, n) + 1];
      if n !in supported {
        Frontier(supported, work).MarkSplits(n, delivered);
        supported := supported + {n};
        work' := work' + [n];
      } else {
        assert supported + {n} == supported;
      }
    }

    /** New rules already met by the old support fire now; the cascade fires the others. */
    method FireMet(added: set<Derivation>, work0: seq<NodeId>, ghost pending0: set<RuleId>,
                   ghost baseline: set<NodeId>, ghost all: set<NodeId>)
      returns (work: seq<NodeId>)
      requires Indexed(derivs, ids, uses, heads, nextId) && Counting(derivs, unmet, baseline)
      requires Credited(base, derivs, unmet, supportCount, pending0, supported)
      requires IdsOf(derivs, added, pending0) && added <= ids.Keys
      requires Frontier(supported, work0).Splits(baseline)
      requires supported <= all && ClosedUnderRules(derivs, all)
      modifies this`supportCount, this`supported
      ensures Credited(base, derivs, unmet, supportCount, {}, supported)
      ensures Frontier(supported, work).Splits(baseline)
      ensures old(supported) <= supported <= all
    {
      hide *;
      work := work0;
      ghost var pending := pending0;
      var todo := added;
      while todo != {}
        invariant todo <= added && IdsOf(derivs, todo, pending)
        invariant Credited(base, derivs, unmet, supportCount, pending, supported)
        invariant Frontier(supported, work).Splits(baseline)
        invariant old(supported) <= supported <= all
        decreases todo
      {
        var d :| d in todo;
        IdsOfLess(derivs, ids, uses, heads, nextId, todo, pending, d);
        var i := ids[d];
        CountedRule(derivs, unmet, baseline, i);
        ClosedUnderFires(derivs, all, i);
        DeliveredAreSupported(supported, work, baseline);
        CreditPending(base, derivs, unmet, supportCount, pending, supported, i);
        todo := todo - {d};
        pending := pending - {i};
        if unmet[i] == 0 {
          work := Credit(d.conclusion, work, baseline);
        }
      }
      NothingPending(derivs, pending);
    }

    method Insert(addedBase: set<NodeId>, addedDerivs: set<Derivation>)
      requires Settled(base, derivs, ids, uses, heads, nextId, unmet, supportCount, supported)
      requires addedBase !! base && addedDerivs !! ids.Keys
      modifies this
      ensures Settled(base, derivs, ids, uses, heads, nextId, unmet, supportCount, supported)
      ensures base == old(base) + addedBase && ids.Keys == old(ids.Keys) + addedDerivs
    {
      hide *;
      SettledMeans(base, derivs, ids, uses, heads, nextId, unmet, supportCount, supported);
      ghost var all := Support(base + addedBase, ids.Keys + addedDerivs);
      SupportMonotone(base, ids.Keys, base + addedBase, ids.Keys + addedDerivs);
      ghost var baseline := supported;
      ghost var pending := RegisterAll(addedDerivs);
      SupportIsClosedUnderRules(base + addedBase, derivs, ids, uses, heads, nextId);
      var work := AddBaseFacts(addedBase, pending, all);
      work := FireMet(addedDerivs, work, pending, baseline, all);
      Cascade(work, baseline, all);
      SettlesAt(base, derivs, ids, uses, heads, nextId, unmet, supportCount, supported);
    }

    /** Takes the removed rules out of every table, and notes the nodes that lost a firing rule. */
    method Unregister(removed: set<Derivation>, seeds0: set<NodeId>) returns (seeds: set<NodeId>)
      requires Indexed(derivs, ids, uses, heads, nextId) && unmet.Keys == derivs.Keys
      requires removed <= ids.Keys && seeds0 <= supported
      modifies this`ids, this`derivs, this`uses, this`heads, this`unmet
      ensures Indexed(derivs, ids, uses, heads, nextId) && ids.Keys == old(ids.Keys) - removed
      ensures Kept(old(derivs), old(unmet), removed, derivs, unmet)
      ensures Seeded(old(derivs), old(unmet), removed, supported, seeds) && seeds0 <= seeds
    {
      seeds := seeds0;
      ghost var derivs0, unmet0, known, done := derivs, unmet, ids.Keys, {};
      assert Kept(derivs0, unmet0, done, derivs, unmet) && Seeded(derivs0, unmet0, done, supported, seeds);
      hide *;
      var todo := removed;
      while todo != {}
        invariant todo !! done && todo + done == removed && ids.Keys == known - done
        invariant Indexed(derivs, ids, uses, heads, nextId)
        invariant Kept(derivs0, unmet0, done, derivs, unmet)
        invariant unmet0.Keys == derivs0.Keys
        invariant Seeded(derivs0, unmet0, done, supported, seeds) && seeds0 <= seeds
        decreases todo
      {
        var d :| d in todo;
        todo := todo - {d};
        KeptLess(derivs0, unmet0, done, derivs, unmet, ids, uses, heads, nextId, d);
        SeededMore(derivs0, unmet0, done, supported, seeds, derivs, unmet, ids, uses, heads, nextId, d);
        if unmet[ids[d]] == 0 && d.conclusion in supported {
          seeds := seeds + {d.conclusion};
        }
        assert Seeded(derivs0, unmet0, done + {d}, supported, seeds) && seeds0 <= seeds;
        UnregisterOne(d);
        done := done + {d};
      }
    }

    method UnregisterOne(d: Derivation)
      requires Indexed(derivs, ids, uses, heads, nextId) && d in ids
      modifies this`ids, this`derivs, this`uses, this`heads, this`unmet
      ensures Indexed(derivs, ids, uses, heads, nextId)
      ensures derivs == old(derivs) - {old(ids)[d]} && ids == old(ids) - {d} && unmet == old(unmet) - {old(ids)[d]}
    {
      hide *;
      var i := ids[d];
      var heads' := heads[d.conclusion := IdsAt(heads, d.conclusion) - {i}];
      var uses' := RemoveUses(uses, d.body, i);
      UnregisterIndexed(derivs, ids, uses, heads, nextId, d, uses', heads');
      ids := ids - {d};
      unmet := unmet - {i};
      heads := heads';
      uses := uses';
      derivs := derivs - {i};
    }

    method SupportedHeads(node: NodeId, gone: set<NodeId>) returns (pushed: seq<NodeId>)
      requires Indexed(derivs, ids, uses, heads, nextId)
      ensures HeadsOf(derivs, supported, gone, node, pushed)
    {
      pushed := [];
      var todo := IdsAt(uses, node);
      while todo != {}
        invariant todo <= IdsAt(uses, node)
        invariant forall n :: n in pushed ==> n in supported
        invariant forall i :: i in IdsAt(uses, node) && i !in todo && derivs[i].conclusion in supported ==>
                                derivs[i].conclusion in gone || derivs[i].conclusion in pushed
        decreases todo
      {
        var i :| i in todo;
        todo := todo - {i};
        var head := derivs[i].conclusion;
        if head in supported && head !in gone {
          pushed := pushed + [head];
        }
      }
    }

    /** Phase one of DRed: everything supported that could rest on a seed is torn down. */
    method OverDelete(seeds: set<NodeId>) returns (gone: set<NodeId>)
      requires Indexed(derivs, ids, uses, heads, nextId) && seeds <= supported
      ensures seeds <= gone && Spreads(derivs, supported, gone, [])
    {
      gone := {};
      var stack := ToSeq(seeds);
      assert Spreads(derivs, supported, gone, stack) && Covers(gone, stack, seeds);
      hide *;
      while stack != []
        invariant Spreads(derivs, supported, gone, stack) && Covers(gone, stack, seeds)
        decreases supported - gone, |stack|
      {
        var node := stack[|stack| - 1];
        var rest := stack[..|stack| - 1];
        TopIsSupported(derivs, supported, gone, stack);
        if node in gone {
          SkipDeleted(derivs, supported, gone, stack, seeds);
          stack := rest;
        } else {
          var pushed := SupportedHeads(node, gone + {node});
          DeleteOne(derivs, supported, gone, stack, seeds, pushed);
          gone := gone + {node};
          stack := rest + pushed;
        }
      }
      CoversAll(gone, seeds);
    }

    method Unsupport(gone: set<NodeId>)
      requires gone <= supported
      modifies this`supported, this`supportCount
      ensures supported == old(supported) - gone
      ensures forall n :: CountAt(supportCount, n) == if n in gone then 0 else CountAt(old(supportCount), n)
    {
      var todo := gone;
      while todo != {}
        invariant todo <= gone && supported == old(supported) - (gone - todo)
        invariant forall n :: CountAt(supportCount, n) ==
                                if n in gone && n !in todo then 0 else CountAt(old(supportCount), n)
        decreases todo
      {
        var node :| node in todo;
        todo := todo - {node};
        supported := supported - {node};
        supportCount := supportCount[node := 0];
      }
    }

    /** Rules that use a torn-down node count again; the others were not affected. */
    method Recount(gone: set<NodeId>, ghost supported0: set<NodeId>)
      requires Indexed(derivs, ids, uses, heads, nextId) && Counting(derivs, unmet, supported0)
      requires supported == supported0 - gone
      modifies this`unmet
      ensures Counting(derivs, unmet, supported)
    {
      hide *;
      var affected: set<RuleId> := {};
      var todo := gone;
      ghost var done := {};
      NothingAffected(derivs);
      while todo != {}
        invariant todo !! done && todo + done == gone
        invariant Affected(derivs, done, affected) && unmet == old(unmet)
        decreases todo
      {
        var node :| node in todo;
        todo := todo - {node};
        AffectedMore(derivs, ids, uses, heads, nextId, done, affected, node);
        done := done + {node};
        affected := affected + IdsAt(uses, node);
      }
      StaleAfterDeletion(derivs, unmet, supported0, gone, affected);
      while affected != {}
        invariant CountingExcept(derivs, unmet, supported, affected)
        decreases affected
      {
        var i :| i in affected;
        RecountOne(derivs, unmet, supported, affected, i);
        affected := affected - {i};
        unmet := unmet[i := Unmet(derivs[i], supported)];
      }
      NothingStale(derivs, unmet, supported);
    }

    /** Looks for what still grounds one torn-down node. */
    method RederiveNode(node: NodeId, work0: seq<NodeId>, ghost todo: set<NodeId>, ghost survivors: set<NodeId>,
                        ghost all: set<NodeId>)
      returns (work: seq<NodeId>)
      requires Indexed(derivs, ids, uses, heads, nextId) && Counting(derivs, unmet, survivors)
      requires Rebuilding(base, derivs, unmet, supportCount, todo, supported) && node in todo
      requires Frontier(supported, work0).Splits(survivors)
      requires base <= all && supported <= all && ClosedUnderRules(derivs, all) && survivors <= all
      modifies this`supportCount, this`supported
      ensures Rebuilding(base, derivs, unmet, supportCount, todo - {node}, supported)
      ensures Frontier(supported, work).Splits(survivors)
      ensures old(supported) <= supported <= all
    {
      hide *;
      work := work0;
      ghost var counts0 := supportCount;
      RebuildingNode(base, derivs, unmet, supportCount, todo, supported, node);
      RegroundingStarts(base, derivs, ids, uses, heads, nextId, unmet, supportCount, node);
      if node in base {
        work := Credit(node, work, survivors);
        CountUpdated(counts0, node);
      }
      var left := IdsAt(heads, node);
      while left != {}
        invariant left <= IdsAt(heads, node)
        invariant Regrounding(base, derivs, unmet, counts0, supportCount, left, node)
        invariant supported == if CountAt(supportCount, node) == 0 then old(supported) else old(supported) + {node}
        invariant Frontier(supported, work).Splits(survivors)
        invariant supported <= all
        decreases left
      {
        var i :| i in left;
        RegroundingContinues(base, derivs, ids, uses, heads, nextId, unmet, counts0, supportCount, left, node, i);
        CountedRule(derivs, unmet, survivors, i);
        ClosedUnderFires(derivs, all, i);
        left := left - {i};
        if unmet[i] == 0 {
          CountUpdated(supportCount, node);
          work := Credit(node, work, survivors);
        }
      }
      RegroundingEnds(base, derivs, unmet, counts0, supportCount, node);
      RebuiltOne(base, derivs, unmet, counts0, todo, old(supported), node, supportCount, supported);
    }

    /** Phase two of DRed: from the survivors, bring back what still re-grounds. */
    method Rederive(gone: set<NodeId>, ghost all: set<NodeId>) returns (work: seq<NodeId>)
      requires Indexed(derivs, ids, uses, heads, nextId) && Counting(derivs, unmet, supported)
      requires Rebuilding(base, derivs, unmet, supportCount, gone, supported)
      requires base <= all && supported <= all && ClosedUnderRules(derivs, all)
      modifies this`supportCount, this`supported
      ensures Credited(base, derivs, unmet, supportCount, {}, supported)
      ensures Frontier(supported, work).Splits(old(supported))
      ensures old(supported) <= supported <= all
    {
      work := [];
      assert Frontier(supported, work).Splits(supported);
      hide *;
      var todo := gone;
      while todo != {}
        invariant Rebuilding(base, derivs, unmet, supportCount, todo, supported)
        invariant Frontier(supported, work).Splits(old(supported))
        invariant old(supported) <= supported <= all
        decreases todo
      {
        var node :| node in todo;
        work := RederiveNode(node, work, todo, old(supported), all);
        todo := todo - {node};
      }
      RebuildingEnds(base, derivs, unmet, supportCount, supported);
    }

    /** DRed retraction. Correct on cycles: a cycle left without grounding is torn down whole
        and finds nothing to re-derive from. */
    method Delete(removedBase: set<NodeId>, removedDerivs: set<Derivation>)
      requires Settled(base, derivs, ids, uses, heads, nextId, unmet, supportCount, supported)
      requires removedBase <= base && removedDerivs <= ids.Keys
      modifies this
      ensures Settled(base, derivs, ids, uses, heads, nextId, unmet, supportCount, supported)
      ensures base == old(base) - removedBase && ids.Keys == old(ids.Keys) - removedDerivs
    {
      hide *;
      SettledMeans(base, derivs, ids, uses, heads, nextId, unmet, supportCount, supported);
      CreditedMeans(base, derivs, unmet, supportCount, {}, supported);
      ghost var supported0 := supported;
      base := base - removedBase;
      var seeds := Unregister(removedDerivs, removedBase * supported);
      KeptCounts(old(derivs), old(unmet), removedDerivs, derivs, unmet, supported0);
      SeededInside(old(derivs), old(unmet), removedDerivs, supported, seeds);
      var gone := OverDelete(seeds);
      SpreadsInside(derivs, supported, gone);
      SeededWider(old(derivs), old(unmet), removedDerivs, supported, seeds, gone);
      IdsInverse(old(derivs), old(ids), old(uses), old(heads), old(nextId));
      SurvivorsAreSupported(old(base), old(derivs), old(ids), old(unmet), supported0, base, derivs, unmet,
                            removedDerivs, gone);
      ghost var unmet1 := unmet;
      Unsupport(gone);
      Recount(gone, supported0);
      RebuildingStarts(old(base), old(derivs), old(unmet), old(supportCount), supported0, base, derivs, unmet1, unmet,
                       supportCount, removedDerivs, gone);
      ghost var all := Support(base, ids.Keys);
      SupportIsClosedUnderRules(base, derivs, ids, uses, heads, nextId);
      ghost var survivors := supported;
      var work := Rederive(gone, all);
      Cascade(work, survivors, all);
      SettlesAt(base, derivs, ids, uses, heads, nextId, unmet, supportCount, supported);
    }

    /** Takes `g` as the next snapshot: deletions first, then insertions. */
    method Apply(g: Graph) returns (result: set<NodeId>)
      requires Settled(base, derivs, ids, uses, heads, nextId, unmet, supportCount, supported)
      modifies this
      ensures Settled(base, derivs, ids, uses, heads, nextId, unmet, supportCount, supported)
      ensures base == g.baseFacts && ids.Keys == g.Rules()
      ensures result == supported == Support(g.baseFacts, g.Rules())
      ensures forall n :: CountAt(supportCount, n) == Groundings(g.baseFacts, g.Rules(), result, n)
      ensures forall n :: CountAt(supportCount, n) > 0 <==> n in result
    {
      hide *;
      var newBase, newDerivs := g.baseFacts, g.Rules();
      var removedBase, addedBase := base - newBase, newBase - base;
      var removedDerivs, addedDerivs := ids.Keys - newDerivs, newDerivs - ids.Keys;
      Patched(base, newBase);
      Patched(ids.Keys, newDerivs);
      if removedBase != {} || removedDerivs != {} {
        Delete(removedBase, removedDerivs);
      }
      assert base == old(base) - removedBase && ids.Keys == old(ids.Keys) - removedDerivs;
      if addedBase != {} || addedDerivs != {} {
        Insert(addedBase, addedDerivs);
      }
      assert base == g.baseFacts && ids.Keys == g.Rules();
      SettledMeans(base, derivs, ids, uses, heads, nextId, unmet, supportCount, supported);
      result := supported;
      CountsAreGroundings(base, derivs, ids, uses, heads, nextId, unmet, supportCount, supported);
    }

    method SupportCount(n: NodeId) returns (count: int)
      requires Settled(base, derivs, ids, uses, heads, nextId, unmet, supportCount, supported)
      ensures count == Groundings(base, ids.Keys, Support(base, ids.Keys), n)
    {
      SettledMeans(base, derivs, ids, uses, heads, nextId, unmet, supportCount, supported);
      CountsAreGroundings(base, derivs, ids, uses, heads, nextId, unmet, supportCount, supported);
      count := CountAt(supportCount, n);
    }

    constructor ()
      ensures Settled(base, derivs, ids, uses, heads, nextId, unmet, supportCount, supported)
      ensures base == {} && ids == map[]
    {
      base, derivs, ids, nextId, uses, heads := {}, map[], map[], 0, map[], map[];
      unmet, supportCount, supported := map[], map[], {};
      new;
      NothingSettles();
    }
  }

  lemma Patched<T>(was: set<T>, wanted: set<T>)
    ensures wanted - was !! was - (was - wanted) && was - (was - wanted) + (wanted - was) == wanted
  {
  }

  lemma NothingSettles()
    ensures Settled({}, map[], map[], map[], map[], 0, map[], map[], {})
  {
    hide *;
    NoRules();
    NothingIsSupported();
    NothingIsSettled();
  }

  lemma NoRules()
    ensures Indexed(map[], map[], map[], map[], 0) && Counting(map[], map[], {})
    ensures Credited({}, map[], map[], map[], {}, {})
  {
    var none: map<RuleId, int> := map[];
    assert forall n :: Firing(map[], none, n) == {};
  }

  lemma NothingIsSupported()
    ensures Support({}, {}) == {}
  {
    assert Universe({}, {}) == {};
  }

  lemma NothingIsSettled()
    requires Indexed(map[], map[], map[], map[], 0) && Counting(map[], map[], {})
    requires Credited({}, map[], map[], map[], {}, {}) && Support({}, {}) == {}
    ensures Settled({}, map[], map[], map[], map[], 0, map[], map[], {})
  {
    hide Indexed, Counting, Credited, Support;
    var ids: map<Derivation, RuleId> := map[];
    assert ids.Keys == {};
  }

  lemma CreditedMeans(base: set<NodeId>, derivs: map<RuleId, Derivation>, unmet: map<RuleId, int>,
                      counts: map<NodeId, int>, pending: set<RuleId>, supported: set<NodeId>)
    requires Credited(base, derivs, unmet, counts, pending, supported)
    ensures unmet.Keys == derivs.Keys && base <= supported
  {
  }

  lemma KeptCounts(derivs0: map<RuleId, Derivation>, unmet0: map<RuleId, int>, removed: set<Derivation>,
                   derivs: map<RuleId, Derivation>, unmet: map<RuleId, int>, delivered: set<NodeId>)
    requires Kept(derivs0, unmet0, removed, derivs, unmet) && Counting(derivs0, unmet0, delivered)
    ensures Counting(derivs, unmet, delivered)
  {
  }

  lemma SeededInside(derivs0: map<RuleId, Derivation>, unmet0: map<RuleId, int>, removed: set<Derivation>,
                     supported: set<NodeId>, seeds: set<NodeId>)
    requires unmet0.Keys == derivs0.Keys && Seeded(derivs0, unmet0, removed, supported, seeds)
    ensures seeds <= supported
  {
  }

  lemma SeededWider(derivs0: map<RuleId, Derivation>, unmet0: map<RuleId, int>, removed: set<Derivation>,
                    supported: set<NodeId>, seeds: set<NodeId>, gone: set<NodeId>)
    requires unmet0.Keys == derivs0.Keys && Seeded(derivs0, unmet0, removed, supported, seeds)
    requires seeds <= gone <= supported
    ensures Seeded(derivs0, unmet0, removed, supported, gone)
  {
  }

  lemma SpreadsInside(derivs: map<RuleId, Derivation>, supported: set<NodeId>, gone: set<NodeId>)
    requires Spreads(derivs, supported, gone, [])
    ensures gone <= supported
  {
  }

  lemma IdsInverse(derivs: map<RuleId, Derivation>, ids: map<Derivation, RuleId>, uses: Index, heads: Index,
                   nextId: nat)
    requires Indexed(derivs, ids, uses, heads, nextId)
    ensures forall d :: d in ids ==> ids[d] in derivs && derivs[ids[d]] == d
  {
  }

  /** The maintained integer is the number of active groundings, and positive exactly on support. */
  lemma CountsAreGroundings(base: set<NodeId>, derivs: map<RuleId, Derivation>, ids: map<Derivation, RuleId>,
                            uses: Index, heads: Index, nextId: nat, unmet: map<RuleId, int>,
                            counts: map<NodeId, int>, supported: set<NodeId>)
    requires Settled(base, derivs, ids, uses, heads, nextId, unmet, counts, supported)
    ensures forall n :: CountAt(counts, n) == Groundings(base, ids.Keys, supported, n)
    ensures forall n :: CountAt(counts, n) > 0 <==> n in supported
  {
    forall n
      ensures CountAt(counts, n) == Groundings(base, ids.Keys, supported, n)
      ensures CountAt(counts, n) > 0 <==> n in supported
    {
      FiringRules(derivs, ids, uses, heads, nextId, unmet, supported, n);
      assert CountIs(base, derivs, unmet, counts, {}, n);
      GroundedIffCounted(base, ids.Keys, n);
    }
  }

  lemma FiringRules(derivs: map<RuleId, Derivation>, ids: map<Derivation, RuleId>, uses: Index, heads: Index,
                    nextId: nat, unmet: map<RuleId, int>, supported: set<NodeId>, n: NodeId)
    requires Indexed(derivs, ids, uses, heads, nextId) && Counting(derivs, unmet, supported)
    ensures |Firing(derivs, unmet, n) - {}| == |set d | d in ids.Keys && d.conclusion == n && d.body <= supported|
  {
    hide Unmet;
    var rules := set d | d in ids.Keys && d.conclusion == n && d.body <= supported;
    var firing := Firing(derivs, unmet, n) - {};
    var f := map d | d in rules :: ids[d];
    forall d | d in rules
      ensures ids[d] in firing
    {
      AllMet(derivs[ids[d]], supported);
    }
    forall i | i in firing
      ensures derivs[i] in f && f[derivs[i]] == i
    {
      AllMet(derivs[i], supported);
    }
    assert f.Keys == rules;
    assert f.Values == firing;
    BijectionCardinality(f);
  }

  /** A node is supported exactly when something grounds it. */
  lemma GroundedIffCounted(base: set<NodeId>, rules: set<Derivation>, n: NodeId)
    ensures Groundings(base, rules, Support(base, rules), n) > 0 <==> n in Support(base, rules)
  {
    var all := Support(base, rules);
    SupportIsLeast(base, rules);
    var firing := set d | d in rules && d.conclusion == n && d.body <= all;
    if n in all && n !in base {
      var rest := all - {n};
      assert !(all <= rest) && !Closed(base, rules, rest);
      var d :| d in rules && d.body <= rest && d.conclusion !in rest;
      assert d in firing;
    }
    if firing != {} {
      var d :| d in firing;
    }
  }

  lemma RebuildingNode(base: set<NodeId>, derivs: map<RuleId, Derivation>, unmet: map<RuleId, int>,
                       counts: map<NodeId, int>, todo: set<NodeId>, supported: set<NodeId>, node: NodeId)
    requires Rebuilding(base, derivs, unmet, counts, todo, supported) && node in todo
    ensures unmet.Keys == derivs.Keys && CountAt(counts, node) == 0 && node !in supported
  {
  }

  lemma CountUpdated(counts: map<NodeId, int>, n: NodeId)
    ensures CountAt(counts[n := CountAt(counts, n) + 1], n) == CountAt(counts, n) + 1
  {
  }

  lemma RegroundingEnds(base: set<NodeId>, derivs: map<RuleId, Derivation>, unmet: map<RuleId, int>,
                        counts0: map<NodeId, int>, counts: map<NodeId, int>, node: NodeId)
    requires Regrounding(base, derivs, unmet, counts0, counts, {}, node)
    ensures unmet.Keys == derivs.Keys && CountIs(base, derivs, unmet, counts, {}, node)
    ensures forall n :: n != node ==> CountAt(counts, n) == CountAt(counts0, n)
  {
  }

  lemma TopIsSupported(derivs: map<RuleId, Derivation>, supported: set<NodeId>, gone: set<NodeId>, stack: seq<NodeId>)
    requires stack != [] && Spreads(derivs, supported, gone, stack)
    ensures stack[|stack| - 1] in supported && gone <= supported
  {
  }

  lemma CoversAll(gone: set<NodeId>, seeds: set<NodeId>)
    requires Covers(gone, [], seeds)
    ensures seeds <= gone
  {
  }

  method ToSeq(s: set<NodeId>) returns (r: seq<NodeId>)
    ensures forall n :: n in r <==> n in s
  {
    r := [];
    var todo := s;
    while todo != {}
      invariant todo <= s
      invariant forall n :: n in r <==> n in s && n !in todo
      decreases todo
    {
      var n :| n in todo;
      todo := todo - {n};
      r := r + [n];
    }
  }

  method AddUses(uses: Index, body: set<NodeId>, i: RuleId) returns (uses': Index)
    ensures UsesAdded(uses, uses', body, i)
  {
    uses' := uses;
    var todo := body;
    while todo != {}
      invariant todo <= body
      invariant forall n :: IdsAt(uses', n) == if n in body && n !in todo then IdsAt(uses, n) + {i} else IdsAt(uses, n)
      decreases todo
    {
      var a :| a in todo;
      todo := todo - {a};
      uses' := uses'[a := IdsAt(uses', a) + {i}];
    }
  }

  method RemoveUses(uses: Index, body: set<NodeId>, i: RuleId) returns (uses': Index)
    ensures UsesRemoved(uses, uses', body, i)
  {
    uses' := uses;
    var todo := body;
    while todo != {}
      invariant todo <= body
      invariant forall n :: IdsAt(uses', n) == if n in body && n !in todo then IdsAt(uses, n) - {i} else IdsAt(uses, n)
      decreases todo
    {
      var a :| a in todo;
      todo := todo - {a};
      uses' := uses'[a := IdsAt(uses', a) - {i}];
    }
  }
}
