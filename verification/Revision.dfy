/**
 Belief revision by identity, as src/iknos/core/component_aggregate.py performs it: asserting a
 SAME_AS edge merges two components, retracting one may split them again, and every revision
 aggregates anew from the current edges.

 `AssertingConserves` and `RetractingDivides` follow an edge through union-find and the map of
 representatives to the aggregates. `SplitRestoresExactlyWhen` is when undoing a merge restores
 every aggregate: always, unless the edge was already there and nothing else held its component
 together.
 */
module Revision {
  import opened Sets
  import opened TruthMaintenance
  import opened Confidence
  import opened Resolve
  import opened Components

  // ---------------------------------------------------------------- representatives

  /** Each entity stands for the least entity it is connected to. */
  ghost predicate StandsFor(pairs: set<Pair>, canonical: Canonical, e: EntityId) {
    && Linked(pairs, e, RepOf(canonical, e))
    && forall f {:trigger Linked(pairs, e, f)} :: Linked(pairs, e, f) ==> RepOf(canonical, e).rank <= f.rank
  }

  ghost predicate Canonizes(pairs: set<Pair>, canonical: Canonical) {
    forall e {:trigger StandsFor(pairs, canonical, e)} :: StandsFor(pairs, canonical, e)
  }

  lemma LeastMembersCanonize(pairs: set<Pair>, components: seq<set<EntityId>>, mapping: Canonical)
    requires Classes(components, pairs) && LeastMembers(components, mapping)
    ensures Canonizes(pairs, mapping)
  {
    hide Linked;
    forall e
      ensures StandsFor(pairs, mapping, e)
    {
      LinkedSelf(pairs, e);
      if e in mapping {
        var i :| 0 <= i < |components| && e in components[i];
        assert Linked(pairs, e, mapping[e]);
      } else {
        forall f | Linked(pairs, e, f)
          ensures f == e
        {
        }
      }
    }
  }

  /** The whole read-and-aggregate pass over the current SAME_AS edges. */
  method Aggregate(a: Annotated, sameAs: seq<Pair>) returns (canonical: Canonical, result: map<EntityId, Evidence>)
    ensures Canonizes(SeqToSet(sameAs), canonical)
    ensures forall c :: c in result <==> a.NodesOf(canonical, c) != {}
    ensures forall c :: c in result ==> result[c] == EvidenceOf(a, canonical, c)
  {
    var components := UnionComponents(sameAs);
    var r := CanonicalMap(components);
    assert r.Mapped?;
    canonical := r.canonical;
    DisjointMembersAreLeast(components, canonical);
    LeastMembersCanonize(SeqToSet(sameAs), components, canonical);
    result := AggregateComponents(a, canonical);
  }

  lemma IsRepresentative(pairs: set<Pair>, canonical: Canonical, e: EntityId, r: EntityId)
    requires Canonizes(pairs, canonical) && Linked(pairs, e, r)
    requires forall f :: Linked(pairs, e, f) ==> r.rank <= f.rank
    ensures RepOf(canonical, e) == r
  {
    hide Linked, RepOf;
    assert StandsFor(pairs, canonical, e);
  }

  /** Two entities share a representative exactly when the edges connect them. */
  lemma RepresentativesTellApart(pairs: set<Pair>, canonical: Canonical, e: EntityId, f: EntityId)
    requires Canonizes(pairs, canonical)
    ensures RepOf(canonical, e) == RepOf(canonical, f) <==> Linked(pairs, e, f)
  {
    hide Linked, RepOf;
    var r, t := RepOf(canonical, e), RepOf(canonical, f);
    assert StandsFor(pairs, canonical, e) && StandsFor(pairs, canonical, f);
    if Linked(pairs, e, f) {
      LinkedSymmetric(pairs, e, f);
      LinkedTransitive(pairs, e, f, t);
      LinkedTransitive(pairs, f, e, r);
    }
    if r == t {
      LinkedSymmetric(pairs, f, r);
      LinkedTransitive(pairs, e, r, f);
    }
  }

  /** The map is a function of what the edges connect. */
  lemma SameLinksSameMap(pairs: set<Pair>, pairs': set<Pair>, canonical: Canonical, canonical': Canonical)
    requires Canonizes(pairs, canonical) && Canonizes(pairs', canonical')
    requires forall u, v :: Linked(pairs, u, v) <==> Linked(pairs', u, v)
    ensures forall e :: RepOf(canonical, e) == RepOf(canonical', e)
  {
    hide Linked, RepOf;
    forall e
      ensures RepOf(canonical, e) == RepOf(canonical', e)
    {
      assert StandsFor(pairs, canonical, e);
      IsRepresentative(pairs', canonical', e, RepOf(canonical, e));
    }
  }

  lemma SameMapSameEvidence(a: Annotated, canonical: Canonical, canonical': Canonical, z: EntityId)
    requires forall e :: RepOf(canonical, e) == RepOf(canonical', e)
    ensures EvidenceOf(a, canonical, z) == EvidenceOf(a, canonical', z)
  {
    hide RepOf;
    assert a.NodesOf(canonical, z) == a.NodesOf(canonical', z);
    assert a.MembersOf(canonical, z) == a.MembersOf(canonical', z);
  }

  // ---------------------------------------------------------------- asserting an edge

  /** The edge is written from the lesser entity to the greater. */
  function SameAs(x: EntityId, y: EntityId): Pair {
    if x.rank <= y.rank then (x, y) else (y, x)
  }

  function Lesser(c: EntityId, d: EntityId): EntityId {
    if c.rank <= d.rank then c else d
  }

  lemma AssertedLinks(pairs: set<Pair>, x: EntityId, y: EntityId, u: EntityId, v: EntityId)
    ensures Linked(pairs + {SameAs(x, y)}, u, v) <==> LinkedThrough(pairs, x, y, u, v)
  {
    hide Linked;
    if x.rank <= y.rank {
      OneMorePair(pairs, x, y, u, v);
    } else {
      OneMorePair(pairs, y, x, u, v);
    }
  }

  /** An edge inside a component changes nothing; an edge between two brings both under the lesser
      of their representatives. */
  lemma AssertingMerges(pairs: set<Pair>, x: EntityId, y: EntityId, before: Canonical, after: Canonical)
    requires Canonizes(pairs, before) && Canonizes(pairs + {SameAs(x, y)}, after)
    ensures Linked(pairs, x, y) ==> forall e :: RepOf(after, e) == RepOf(before, e)
    ensures !Linked(pairs, x, y) ==>
              var c, d := RepOf(before, x), RepOf(before, y);
              Merges(before, after, c, d, Lesser(c, d))
  {
    hide Linked, RepOf;
    var c, d := RepOf(before, x), RepOf(before, y);
    RepresentativesTellApart(pairs, before, x, y);
    forall e
      ensures RepOf(after, e) == if RepOf(before, e) == c || RepOf(before, e) == d then Lesser(c, d) else RepOf(before, e)
    {
      RepresentativesTellApart(pairs, before, e, x);
      RepresentativesTellApart(pairs, before, e, y);
      if Linked(pairs, e, x) || Linked(pairs, e, y) {
        AssertedInside(pairs, x, y, before, after, e);
      } else {
        AssertedOutside(pairs, x, y, before, after, e);
      }
    }
  }

  lemma AssertedInside(pairs: set<Pair>, x: EntityId, y: EntityId, before: Canonical, after: Canonical, e: EntityId)
    requires Canonizes(pairs, before) && Canonizes(pairs + {SameAs(x, y)}, after)
    requires Linked(pairs, e, x) || Linked(pairs, e, y)
    ensures RepOf(after, e) == Lesser(RepOf(before, x), RepOf(before, y))
  {
    hide Linked, RepOf;
    var more := pairs + {SameAs(x, y)};
    var c, d := RepOf(before, x), RepOf(before, y);
    assert StandsFor(pairs, before, x) && StandsFor(pairs, before, y);
    LinkedSymmetric(pairs, x, c);
    LinkedSymmetric(pairs, y, d);
    AssertedLinks(pairs, x, y, e, c);
    AssertedLinks(pairs, x, y, e, d);
    Chains(pairs, e, x, c);
    Chains(pairs, e, y, d);
    forall f | Linked(more, e, f)
      ensures Lesser(c, d).rank <= f.rank
    {
      AssertedLinks(pairs, x, y, e, f);
      ReachesEither(pairs, x, y, e, f);
    }
    IsRepresentative(more, after, e, Lesser(c, d));
  }

  lemma ReachesEither(pairs: set<Pair>, x: EntityId, y: EntityId, e: EntityId, f: EntityId)
    requires LinkedThrough(pairs, x, y, e, f) && (Linked(pairs, e, x) || Linked(pairs, e, y))
    ensures Linked(pairs, x, f) || Linked(pairs, y, f)
  {
    hide Linked;
    if Linked(pairs, e, x) {
      LinkedSymmetric(pairs, e, x);
    }
    if Linked(pairs, e, y) {
      LinkedSymmetric(pairs, e, y);
    }
    Chains(pairs, x, e, f);
    Chains(pairs, y, e, f);
    if Linked(pairs, f, x) {
      LinkedSymmetric(pairs, f, x);
    }
    if Linked(pairs, f, y) {
      LinkedSymmetric(pairs, f, y);
    }
  }

  lemma AssertedOutside(pairs: set<Pair>, x: EntityId, y: EntityId, before: Canonical, after: Canonical, e: EntityId)
    requires Canonizes(pairs, before) && Canonizes(pairs + {SameAs(x, y)}, after)
    requires !Linked(pairs, e, x) && !Linked(pairs, e, y)
    ensures RepOf(after, e) == RepOf(before, e)
  {
    hide Linked, RepOf;
    var more := pairs + {SameAs(x, y)};
    assert StandsFor(pairs, before, e);
    AssertedLinks(pairs, x, y, e, RepOf(before, e));
    forall f | Linked(more, e, f)
      ensures RepOf(before, e).rank <= f.rank
    {
      AssertedLinks(pairs, x, y, e, f);
    }
    IsRepresentative(more, after, e, RepOf(before, e));
  }

  /** What the aggregates owe to one more edge. */
  lemma AssertingConserves(a: Annotated, pairs: set<Pair>, x: EntityId, y: EntityId, before: Canonical,
                           after: Canonical, z: EntityId)
    requires Canonizes(pairs, before) && Canonizes(pairs + {SameAs(x, y)}, after)
    ensures Linked(pairs, x, y) ==> EvidenceOf(a, after, z) == EvidenceOf(a, before, z)
    ensures !Linked(pairs, x, y) ==>
              var c, d := RepOf(before, x), RepOf(before, y);
              var u, v, m := EvidenceOf(a, before, c), EvidenceOf(a, before, d), EvidenceOf(a, after, Lesser(c, d));
              && c != d && m.nodes == u.nodes + v.nodes && m.members == u.members + v.members
              && m.support == u.support + v.support - a.Total(u.nodes * v.nodes)
              && m.confidence == Max(u.confidence, v.confidence)
              && (z != c && z != d ==> EvidenceOf(a, after, z) == EvidenceOf(a, before, z))
  {
    hide Linked, RepOf, EvidenceOf, Canonizes;
    AssertingMerges(pairs, x, y, before, after);
    if Linked(pairs, x, y) {
      SameMapSameEvidence(a, after, before, z);
    } else {
      var c, d := RepOf(before, x), RepOf(before, y);
      MergeConserves(a, before, after, c, d, Lesser(c, d), z);
    }
  }

  // ---------------------------------------------------------------- retracting it

  /** Without the edge, a component falls apart in two exactly when nothing else connects its ends;
      otherwise it stays whole. */
  lemma RetractingDivides(pairs: set<Pair>, x: EntityId, y: EntityId, before: Canonical, after: Canonical)
    requires Canonizes(pairs, before) && Canonizes(pairs - {SameAs(x, y)}, after) && SameAs(x, y) in pairs
    ensures Linked(pairs - {SameAs(x, y)}, x, y) ==> forall e :: RepOf(after, e) == RepOf(before, e)
    ensures !Linked(pairs - {SameAs(x, y)}, x, y) ==>
              var c, d := RepOf(after, x), RepOf(after, y);
              RepOf(before, x) == RepOf(before, y) && Merges(after, before, c, d, Lesser(c, d))
  {
    hide Linked, RepOf;
    var fewer := pairs - {SameAs(x, y)};
    assert fewer + {SameAs(x, y)} == pairs;
    AssertingMerges(fewer, x, y, after, before);
  }

  /** The aggregates of two maps agree for every reading of the evidence. */
  ghost predicate SameAggregates(canonical: Canonical, canonical': Canonical) {
    forall a, z :: EvidenceOf(a, canonical, z) == EvidenceOf(a, canonical', z)
  }

  /** One supported node that mentions one entity. */
  ghost function OneMention(e: EntityId): Annotated {
    Annotated(map[NodeId(0) := {e}], map[NodeId(0) := 1], map[NodeId(0) := 1.0])
  }

  lemma MentionCounts(e: EntityId, canonical: Canonical, z: EntityId)
    ensures EvidenceOf(OneMention(e), canonical, z).members == if RepOf(canonical, e) == z then {e} else {}
  {
    var a := OneMention(e);
    assert Mention(NodeId(0), e) in a.Mentions();
    assert a.MembersOf(canonical, z) == if RepOf(canonical, e) == z then {e} else {};
  }

  lemma AggregatesTellMapsApart(canonical: Canonical, canonical': Canonical)
    ensures SameAggregates(canonical, canonical') <==> forall e :: RepOf(canonical, e) == RepOf(canonical', e)
  {
    hide RepOf, EvidenceOf, OneMention;
    if SameAggregates(canonical, canonical') {
      forall e
        ensures RepOf(canonical, e) == RepOf(canonical', e)
      {
        var z := RepOf(canonical, e);
        MentionCounts(e, canonical, z);
        MentionCounts(e, canonical', z);
        assert EvidenceOf(OneMention(e), canonical, z) == EvidenceOf(OneMention(e), canonical', z);
      }
    } else {
      var a, z :| EvidenceOf(a, canonical, z) != EvidenceOf(a, canonical', z);
      if forall e :: RepOf(canonical, e) == RepOf(canonical', e) {
        SameMapSameEvidence(a, canonical, canonical', z);
      }
    }
  }

  /** Asserting `x` and `y` the same and taking it back restores every aggregate exactly when the
      two were apart before, or hold together without the edge that was taken back. */
  lemma SplitRestoresExactlyWhen(pairs: set<Pair>, x: EntityId, y: EntityId, before: Canonical, split: Canonical)
    requires Canonizes(pairs, before) && Canonizes(pairs + {SameAs(x, y)} - {SameAs(x, y)}, split)
    ensures SameAggregates(split, before) <==> !Linked(pairs, x, y) || Linked(pairs - {SameAs(x, y)}, x, y)
  {
    hide Linked, RepOf, SameAggregates;
    var fewer := pairs - {SameAs(x, y)};
    assert pairs + {SameAs(x, y)} - {SameAs(x, y)} == fewer;
    AggregatesTellMapsApart(split, before);
    RepresentativesTellApart(pairs, before, x, y);
    RepresentativesTellApart(fewer, split, x, y);
    if SameAs(x, y) in pairs {
      RetractingDivides(pairs, x, y, before, split);
      AssertedLinks(fewer, x, y, x, y);
      LinkedSelf(fewer, x);
      LinkedSelf(fewer, y);
      assert fewer + {SameAs(x, y)} == pairs;
    } else {
      assert fewer == pairs;
      SameLinksSameMap(pairs, fewer, before, split);
    }
  }
}
