/**
 Evidence of merged entities, as src/iknos/core/component_aggregate.py aggregates it: support is
 added up over the nodes that involve a component, confidence is the best of theirs.

 `MergeConserves` is the belief-revision identity: merging two components adds their supports,
 less what they shared, takes the better confidence, and touches no other component. Revision.dfy
 says which SAME_AS edges merge and split components.
 */
module Components {
  import opened TruthMaintenance
  import opened Confidence
  import opened Resolve

  type Canonical = map<EntityId, EntityId>

  /** An entity absent from the map stands for itself. */
  function RepOf(canonical: Canonical, e: EntityId): EntityId {
    if e in canonical then canonical[e] else e
  }

  datatype Mention = Mention(node: NodeId, entity: EntityId)

  ghost function NodesFor(ms: set<Mention>, canonical: Canonical, c: EntityId): set<NodeId> {
    set m | m in ms && RepOf(canonical, m.entity) == c :: m.node
  }

  ghost function MembersFor(ms: set<Mention>, canonical: Canonical, c: EntityId): set<EntityId> {
    set m | m in ms && RepOf(canonical, m.entity) == c :: m.entity
  }

  /** What the aggregation reads: which entities a node involves, and its two annotations. */
  datatype Annotated =
    Annotated(involves: map<NodeId, set<EntityId>>, support: map<NodeId, int>, confidence: map<NodeId, real>) {

    function SupportOf(n: NodeId): int {
      if n in support then support[n] else 0
    }

    function ConfidenceOf(n: NodeId): real {
      if n in confidence then confidence[n] else 0.0
    }

    /** Every mention of an entity by a supported node. */
    ghost function Mentions(): set<Mention> {
      set n, e | n in involves && SupportOf(n) > 0 && e in involves[n] :: Mention(n, e)
    }

    /** The supported nodes that involve a member of the component. */
    ghost function NodesOf(canonical: Canonical, c: EntityId): set<NodeId> {
      NodesFor(Mentions(), canonical, c)
    }

    /** The members of the component that some supported node involves. */
    ghost function MembersOf(canonical: Canonical, c: EntityId): set<EntityId> {
      MembersFor(Mentions(), canonical, c)
    }

    ghost function Total(nodes: set<NodeId>): int {
      if nodes == {} then 0
      else
        var n :| n in nodes;
        SupportOf(n) + Total(nodes - {n})
    }

    ghost function Best(nodes: set<NodeId>): real {
      if nodes == {} then 0.0
      else
        var n :| n in nodes;
        Max(Best(nodes - {n}), ConfidenceOf(n))
    }
  }

  datatype Evidence = Evidence(members: set<EntityId>, nodes: set<NodeId>, support: int, confidence: real)

  ghost function EvidenceOf(a: Annotated, canonical: Canonical, c: EntityId): Evidence {
    var nodes := a.NodesOf(canonical, c);
    Evidence(a.MembersOf(canonical, c), nodes, a.Total(nodes), a.Best(nodes))
  }

  // ---------------------------------------------------------------- sums and maxima over sets

  lemma {:induction false} TotalAnyOrder(a: Annotated, nodes: set<NodeId>, n: NodeId)
    requires n in nodes
    ensures a.Total(nodes) == a.SupportOf(n) + a.Total(nodes - {n})
  {
    var m :| m in nodes && a.Total(nodes) == a.SupportOf(m) + a.Total(nodes - {m});
    if m != n {
      TotalAnyOrder(a, nodes - {m}, n);
      TotalAnyOrder(a, nodes - {n}, m);
      assert nodes - {m} - {n} == nodes - {n} - {m};
    }
  }

  lemma {:induction false} BestAnyOrder(a: Annotated, nodes: set<NodeId>, n: NodeId)
    requires n in nodes
    ensures a.Best(nodes) == Max(a.Best(nodes - {n}), a.ConfidenceOf(n))
  {
    var m :| m in nodes && a.Best(nodes) == Max(a.Best(nodes - {m}), a.ConfidenceOf(m));
    if m != n {
      BestAnyOrder(a, nodes - {m}, n);
      BestAnyOrder(a, nodes - {n}, m);
      assert nodes - {m} - {n} == nodes - {n} - {m};
      hide a.Best, a.ConfidenceOf;
      assert a.Best(nodes) == Max(Max(a.Best(nodes - {m} - {n}), a.ConfidenceOf(n)), a.ConfidenceOf(m));
    }
  }

  /** Support counts every node once. */
  lemma {:induction false} TotalOfUnion(a: Annotated, u: set<NodeId>, v: set<NodeId>)
    ensures a.Total(u + v) == a.Total(u) + a.Total(v) - a.Total(u * v)
  {
    if v == {} {
      assert u + v == u && u * v == {};
    } else {
      var n :| n in v;
      TotalOfUnion(a, u, v - {n});
      TotalAnyOrder(a, v, n);
      if n in u {
        assert u + (v - {n}) == u + v;
        assert u * v - {n} == u * (v - {n});
        TotalAnyOrder(a, u * v, n);
      } else {
        assert u + v - {n} == u + (v - {n});
        assert u * v == u * (v - {n});
        TotalAnyOrder(a, u + v, n);
      }
    }
  }

  lemma {:induction false} BestNonNegative(a: Annotated, nodes: set<NodeId>)
    ensures a.Best(nodes) >= 0.0
  {
    if nodes != {} {
      var n :| n in nodes;
      BestAnyOrder(a, nodes, n);
      BestNonNegative(a, nodes - {n});
    }
  }

  lemma BestBounds(a: Annotated, nodes: set<NodeId>, n: NodeId)
    requires n in nodes
    ensures a.ConfidenceOf(n) <= a.Best(nodes)
  {
    BestAnyOrder(a, nodes, n);
  }

  lemma {:induction false} BestOfUnion(a: Annotated, u: set<NodeId>, v: set<NodeId>)
    ensures a.Best(u + v) == Max(a.Best(u), a.Best(v))
  {
    if v == {} {
      assert u + v == u;
      BestNonNegative(a, u);
    } else {
      var n :| n in v;
      BestOfUnion(a, u, v - {n});
      BestAnyOrder(a, v, n);
      if n in u {
        assert u + (v - {n}) == u + v;
        BestBounds(a, u, n);
      } else {
        assert u + v - {n} == u + (v - {n});
        BestAnyOrder(a, u + v, n);
      }
    }
  }

  // ---------------------------------------------------------------- the aggregation

  function NodesAt(nodesBy: map<EntityId, set<NodeId>>, c: EntityId): set<NodeId> {
    if c in nodesBy then nodesBy[c] else {}
  }

  function MembersAt(membersBy: map<EntityId, set<EntityId>>, c: EntityId): set<EntityId> {
    if c in membersBy then membersBy[c] else {}
  }

  /** The two dictionaries hold exactly these mentions, by representative. */
  ghost predicate Filed(ms: set<Mention>, canonical: Canonical, nodesBy: map<EntityId, set<NodeId>>,
                        membersBy: map<EntityId, set<EntityId>>)
  {
    && nodesBy.Keys == membersBy.Keys
    && (forall c {:trigger c in nodesBy} :: c in nodesBy <==> NodesFor(ms, canonical, c) != {})
    && (forall c {:trigger c in nodesBy} :: c in nodesBy ==> nodesBy[c] == NodesFor(ms, canonical, c))
    && (forall c {:trigger c in membersBy} :: c in membersBy ==> membersBy[c] == MembersFor(ms, canonical, c))
  }

  lemma MoreFor(ms: set<Mention>, canonical: Canonical, m: Mention, c: EntityId)
    ensures NodesFor(ms + {m}, canonical, c)
         == NodesFor(ms, canonical, c) + if RepOf(canonical, m.entity) == c then {m.node} else {}
    ensures MembersFor(ms + {m}, canonical, c)
         == MembersFor(ms, canonical, c) + if RepOf(canonical, m.entity) == c then {m.entity} else {}
    ensures NodesFor(ms, canonical, c) == {} <==> MembersFor(ms, canonical, c) == {}
  {
    hide RepOf;
    if x :| x in NodesFor(ms, canonical, c) {
      var y :| y in ms && RepOf(canonical, y.entity) == c && y.node == x;
      assert y.entity in MembersFor(ms, canonical, c);
    }
    if x :| x in MembersFor(ms, canonical, c) {
      var y :| y in ms && RepOf(canonical, y.entity) == c && y.entity == x;
      assert y.node in NodesFor(ms, canonical, c);
    }
  }

  lemma FileOne(ms: set<Mention>, canonical: Canonical, nodesBy: map<EntityId, set<NodeId>>,
                membersBy: map<EntityId, set<EntityId>>, m: Mention)
    requires Filed(ms, canonical, nodesBy, membersBy)
    ensures var c := RepOf(canonical, m.entity);
            Filed(ms + {m}, canonical, nodesBy[c := NodesAt(nodesBy, c) + {m.node}],
                  membersBy[c := MembersAt(membersBy, c) + {m.entity}])
  {
    hide NodesFor, MembersFor, RepOf;
    var rep := RepOf(canonical, m.entity);
    var nodesBy', membersBy' := nodesBy[rep := NodesAt(nodesBy, rep) + {m.node}],
                                 membersBy[rep := MembersAt(membersBy, rep) + {m.entity}];
    forall c
      ensures c in nodesBy' <==> NodesFor(ms + {m}, canonical, c) != {}
      ensures c in nodesBy' ==> nodesBy'[c] == NodesFor(ms + {m}, canonical, c)
      ensures c in membersBy' ==> membersBy'[c] == MembersFor(ms + {m}, canonical, c)
    {
      MoreFor(ms, canonical, m, c);
      assert c in nodesBy <==> c in membersBy;
    }
  }

  ghost function MentionsBy(n: NodeId, entities: set<EntityId>): set<Mention> {
    set e | e in entities :: Mention(n, e)
  }

  lemma MentionOne(n: NodeId, entities: set<EntityId>, e: EntityId)
    ensures MentionsBy(n, entities + {e}) == MentionsBy(n, entities) + {Mention(n, e)} && MentionsBy(n, {}) == {}
  {
  }

  /** The mentions by the nodes of one part of the input. */
  ghost function MentionsAmong(a: Annotated, visited: set<NodeId>): set<Mention> {
    set n, e | n in visited && n in a.involves && a.SupportOf(n) > 0 && e in a.involves[n] :: Mention(n, e)
  }

  lemma VisitOne(a: Annotated, visited: set<NodeId>, n: NodeId)
    requires n in a.involves
    ensures MentionsAmong(a, visited + {n})
         == MentionsAmong(a, visited) + if a.SupportOf(n) > 0 then MentionsBy(n, a.involves[n]) else {}
    ensures MentionsAmong(a, {}) == {} && MentionsAmong(a, a.involves.Keys) == a.Mentions()
  {
    hide a.SupportOf;
  }

  method FileNode(canonical: Canonical, n: NodeId, entities: set<EntityId>, ghost before: set<Mention>,
                  nodesBy: map<EntityId, set<NodeId>>, membersBy: map<EntityId, set<EntityId>>)
    returns (nodesBy': map<EntityId, set<NodeId>>, membersBy': map<EntityId, set<EntityId>>)
    requires Filed(before, canonical, nodesBy, membersBy)
    ensures Filed(before + MentionsBy(n, entities), canonical, nodesBy', membersBy')
  {
    hide Filed, MentionsBy;
    nodesBy', membersBy' := nodesBy, membersBy;
    var todo := entities;
    ghost var done: set<EntityId> := {};
    assert MentionsBy(n, {}) == {} by { NoMentions(n); }
    assert before + {} == before;
    while todo != {}
      invariant todo + done == entities && Filed(before + MentionsBy(n, done), canonical, nodesBy', membersBy')
      decreases todo
    {
      var e :| e in todo;
      todo := todo - {e};
      var c := RepOf(canonical, e);
      FileOne(before + MentionsBy(n, done), canonical, nodesBy', membersBy', Mention(n, e));
      MentionOne(n, done, e);
      assert before + MentionsBy(n, done) + {Mention(n, e)} == before + MentionsBy(n, done + {e});
      nodesBy' := nodesBy'[c := NodesAt(nodesBy', c) + {n}];
      membersBy' := membersBy'[c := MembersAt(membersBy', c) + {e}];
      done := done + {e};
    }
  }

  lemma NoMentions(n: NodeId)
    ensures MentionsBy(n, {}) == {}
  {
  }

  method GroupByComponent(a: Annotated, canonical: Canonical)
    returns (nodesBy: map<EntityId, set<NodeId>>, membersBy: map<EntityId, set<EntityId>>)
    ensures Filed(a.Mentions(), canonical, nodesBy, membersBy)
  {
    hide MentionsAmong, MentionsBy;
    nodesBy, membersBy := map[], map[];
    var todo := a.involves.Keys;
    ghost var visited: set<NodeId> := {};
    NothingFiled(a, canonical);
    hide Filed;
    while todo != {}
      invariant todo + visited == a.involves.Keys && Filed(MentionsAmong(a, visited), canonical, nodesBy, membersBy)
      decreases todo
    {
      var n :| n in todo;
      todo := todo - {n};
      VisitOne(a, visited, n);
      if a.SupportOf(n) > 0 {
        nodesBy, membersBy := FileNode(canonical, n, a.involves[n], MentionsAmong(a, visited), nodesBy, membersBy);
      } else {
        assert MentionsAmong(a, visited + {n}) == MentionsAmong(a, visited);
      }
      visited := visited + {n};
    }
    assert visited == a.involves.Keys;
    AllVisited(a);
  }

  lemma NothingFiled(a: Annotated, canonical: Canonical)
    ensures Filed(MentionsAmong(a, {}), canonical, map[], map[])
  {
  }

  lemma AllVisited(a: Annotated)
    ensures MentionsAmong(a, a.involves.Keys) == a.Mentions()
  {
  }

  /** One entry per component that some supported node involves. */
  method AggregateComponents(a: Annotated, canonical: Canonical) returns (result: map<EntityId, Evidence>)
    ensures forall c :: c in result <==> a.NodesOf(canonical, c) != {}
    ensures forall c :: c in result ==> result[c] == EvidenceOf(a, canonical, c)
  {
    hide NodesFor, MembersFor;
    var nodesBy, membersBy := GroupByComponent(a, canonical);
    result := map[];
    var todo := nodesBy.Keys;
    while todo != {}
      invariant todo <= nodesBy.Keys && result.Keys == nodesBy.Keys - todo
      invariant forall c :: c in result ==> result[c] == EvidenceOf(a, canonical, c)
      decreases todo
    {
      var c :| c in todo;
      todo := todo - {c};
      assert c in nodesBy && c in membersBy;
      var support, best := Fold(a, nodesBy[c]);
      result := result[c := Evidence(membersBy[c], nodesBy[c], support, best)];
    }
    forall c
      ensures c in result <==> a.NodesOf(canonical, c) != {}
    {
      assert c in result <==> c in nodesBy;
    }
  }

  method Fold(a: Annotated, nodes: set<NodeId>) returns (support: int, best: real)
    ensures support == a.Total(nodes) && best == a.Best(nodes)
  {
    support, best := 0, 0.0;
    var todo := nodes;
    ghost var done: set<NodeId> := {};
    while todo != {}
      invariant todo + done == nodes && todo !! done && support == a.Total(done) && best == a.Best(done)
      decreases todo
    {
      var n :| n in todo;
      todo := todo - {n};
      TotalAnyOrder(a, done + {n}, n);
      BestAnyOrder(a, done + {n}, n);
      assert done + {n} - {n} == done;
      support := support + a.SupportOf(n);
      best := Max(best, a.ConfidenceOf(n));
      done := done + {n};
    }
  }

  /** One node alone brings its component the support it was given, and its confidence if that is above zero. */
  lemma OneNodeCounts(a: Annotated, canonical: Canonical, c: EntityId, n: NodeId)
    requires EvidenceOf(a, canonical, c).nodes == {n}
    ensures n in a.involves && n in a.support && a.support[n] > 0
    ensures EvidenceOf(a, canonical, c).support == a.support[n]
    ensures EvidenceOf(a, canonical, c).confidence
         == if n in a.confidence && a.confidence[n] > 0.0 then a.confidence[n] else 0.0
  {
    assert n in EvidenceOf(a, canonical, c).nodes;
    TotalAnyOrder(a, {n}, n);
    BestAnyOrder(a, {n}, n);
    assert {n} - {n} == {};
  }

  // ---------------------------------------------------------------- merging and splitting

  /** `merged` is `canonical` with the components `c` and `d` brought under `rep`, one of the two. */
  ghost predicate Merges(canonical: Canonical, merged: Canonical, c: EntityId, d: EntityId, rep: EntityId) {
    && c != d && (rep == c || rep == d)
    && forall e :: RepOf(merged, e)
                     == if RepOf(canonical, e) == c || RepOf(canonical, e) == d then rep else RepOf(canonical, e)
  }

  lemma MergedNodes(a: Annotated, canonical: Canonical, merged: Canonical, c: EntityId, d: EntityId,
                    rep: EntityId, x: EntityId)
    requires Merges(canonical, merged, c, d, rep)
    ensures a.NodesOf(merged, rep) == a.NodesOf(canonical, c) + a.NodesOf(canonical, d)
    ensures a.MembersOf(merged, rep) == a.MembersOf(canonical, c) + a.MembersOf(canonical, d)
    ensures x != c && x != d ==> a.NodesOf(merged, x) == a.NodesOf(canonical, x)
                                 && a.MembersOf(merged, x) == a.MembersOf(canonical, x)
  {
    hide RepOf;
  }

  /** Merging unites the supporting nodes, adds the supports less the shared part, keeps the better
      confidence, and leaves every other component as it was. */
  lemma MergeConserves(a: Annotated, canonical: Canonical, merged: Canonical, c: EntityId, d: EntityId, rep: EntityId,
                       x: EntityId)
    requires Merges(canonical, merged, c, d, rep)
    ensures var u, v, m := EvidenceOf(a, canonical, c), EvidenceOf(a, canonical, d), EvidenceOf(a, merged, rep);
            && m.nodes == u.nodes + v.nodes && m.members == u.members + v.members
            && m.support == u.support + v.support - a.Total(u.nodes * v.nodes)
            && m.confidence == Max(u.confidence, v.confidence)
    ensures x != c && x != d ==> EvidenceOf(a, merged, x) == EvidenceOf(a, canonical, x)
  {
    hide a.NodesOf, a.MembersOf, RepOf;
    MergedNodes(a, canonical, merged, c, d, rep, x);
    TotalOfUnion(a, a.NodesOf(canonical, c), a.NodesOf(canonical, d));
    BestOfUnion(a, a.NodesOf(canonical, c), a.NodesOf(canonical, d));
  }

  // ---------------------------------------------------------------- representatives

  /** Exactly the members of the components are mapped, each to the least of its own. */
  ghost predicate LeastMembers(components: seq<set<EntityId>>, mapping: Canonical) {
    && (forall e :: e in mapping <==> exists i :: 0 <= i < |components| && e in components[i])
    && forall i, e :: 0 <= i < |components| && e in components[i] ==>
         mapping[e] in components[i] && forall f :: f in components[i] ==> mapping[e].rank <= f.rank
  }

  method LeastOf(component: set<EntityId>) returns (rep: EntityId)
    requires component != {}
    ensures rep in component && forall e :: e in component ==> rep.rank <= e.rank
  {
    rep :| rep in component;
    var todo := component - {rep};
    while todo != {}
      invariant rep in component && todo <= component
      invariant forall e :: e in component && e !in todo ==> rep.rank <= e.rank
      decreases todo
    {
      var e :| e in todo;
      todo := todo - {e};
      if e.rank < rep.rank {
        rep := e;
      }
    }
  }

  datatype Mapping = Mapped(canonical: Canonical) | EmptyComponent

  /** Exactly the members of the components are mapped, each to the least of the last component that
      has it. */
  ghost predicate LastWins(components: seq<set<EntityId>>, mapping: Canonical) {
    && (forall e :: e in mapping <==> exists i :: 0 <= i < |components| && e in components[i])
    && forall i, e :: 0 <= i < |components| && e in components[i] && InNoLater(components, i, e) ==>
         mapping[e] in components[i] && forall f :: f in components[i] ==> mapping[e].rank <= f.rank
  }

  ghost predicate InNoLater(components: seq<set<EntityId>>, i: nat, e: EntityId) {
    forall k :: i < k < |components| ==> e !in components[k]
  }

  /** Refuses an empty component; where components overlap the later one counts. */
  method CanonicalMap(components: seq<set<EntityId>>) returns (r: Mapping)
    ensures r.EmptyComponent? <==> exists i :: 0 <= i < |components| && components[i] == {}
    ensures r.Mapped? ==> LastWins(components, r.canonical)
  {
    var mapping: Canonical := map[];
    for i := 0 to |components|
      invariant forall k :: 0 <= k < i ==> components[k] != {}
      invariant LastWins(components[..i], mapping)
    {
      if components[i] == {} {
        return EmptyComponent;
      }
      var rep := LeastOf(components[i]);
      ghost var before := mapping;
      mapping := mapping + map e | e in components[i] :: rep;
      OneMoreComponent(components, i, before, mapping, rep);
    }
    assert components[..|components|] == components;
    r := Mapped(mapping);
  }

  lemma OneMoreComponent(components: seq<set<EntityId>>, i: nat, before: Canonical, after: Canonical, rep: EntityId)
    requires i < |components| && LastWins(components[..i], before)
    requires rep in components[i] && forall f :: f in components[i] ==> rep.rank <= f.rank
    requires forall e :: e in after <==> e in before || e in components[i]
    requires forall e :: e in after ==> after[e] == if e in components[i] then rep else before[e]
    ensures LastWins(components[..i + 1], after)
  {
    var front, all := components[..i], components[..i + 1];
    assert all == front + [components[i]];
    forall e
      ensures (exists k :: 0 <= k < |all| && e in all[k])
         <==> e in components[i] || exists k :: 0 <= k < |front| && e in front[k]
    {
      InOneMore(front, components[i], e);
    }
    forall k, e | 0 <= k < |all| && e in all[k] && InNoLater(all, k, e)
      ensures after[e] in all[k] && forall f: EntityId :: f in all[k] ==> after[e].rank <= f.rank
    {
      if k < i {
        StaysLast(front, components[i], k, e);
      }
    }
  }

  lemma StaysLast(front: seq<set<EntityId>>, last: set<EntityId>, k: nat, e: EntityId)
    requires k < |front| && InNoLater(front + [last], k, e)
    ensures e !in last && InNoLater(front, k, e) && (front + [last])[k] == front[k]
  {
    var all := front + [last];
    assert all[|front|] == last;
    assert forall m :: k < m < |front| ==> all[m] == front[m];
  }

  lemma InOneMore(front: seq<set<EntityId>>, last: set<EntityId>, e: EntityId)
    ensures (exists k :: 0 <= k < |front + [last]| && e in (front + [last])[k])
       <==> e in last || exists k :: 0 <= k < |front| && e in front[k]
  {
    var all := front + [last];
    assert all[|front|] == last;
    if k :| 0 <= k < |front| && e in front[k] {
      assert all[k] == front[k];
    }
  }

  /** Components that do not overlap are mapped to their own least members. */
  lemma DisjointMembersAreLeast(components: seq<set<EntityId>>, mapping: Canonical)
    requires LastWins(components, mapping) && Disjoint(components)
    ensures LeastMembers(components, mapping)
  {
    forall i, e | 0 <= i < |components| && e in components[i]
      ensures InNoLater(components, i, e)
    {
    }
  }
}
