/**
 What a conclusion proposed through src/iknos/core/derive.py is worth, in terms of the graph it is
 proposed to: one grounding and the step strength times its premises' confidences, or nothing at
 all if a premise is unsupported.
 */
module ConclusionWorth {
  import opened TruthMaintenance
  import opened Confidence
  import opened Valuation
  import opened DerivationAdapter
  import opened Derive

  /** A node with one rule and no evidence is worth that rule's strength times its body. */
  lemma OneRuleValue(v: Input, conf: map<NodeId, real>, d: Derivation)
    requires v.InRange() && LeastFixpoint(v, conf) && v.Grounded(d)
    requires d in v.graph.derivations && d.conclusion !in v.graph.baseFacts
    requires forall e :: e in v.graph.derivations && e.conclusion == d.conclusion ==> e == d
    ensures UnitOver(conf, d.body)
    ensures conf[d.conclusion] == v.sr.times(v.StrengthOf(d), BodyProduct(v.sr, conf, d.body))
  {
    NodeValueIsBest(v, conf, d.conclusion);
    assert v.Grounds(d, d.conclusion);
    BodyInUnit(v.sr, conf, d.body);
    TimesBelow(v.sr, v.StrengthOf(d), BodyProduct(v.sr, conf, d.body));
    hide v.NodeValue, LeastFixpoint, Lawful, v.StrengthOf;
    assert v.Contribution(conf, d) == v.sr.times(v.StrengthOf(d), BodyProduct(v.sr, conf, d.body));
  }

  /** All premises supported: one grounding, the strength times the premises. Otherwise nothing. */
  ghost predicate Worth(s: ActiveSubgraph, sr: Semiring, premises: set<NodeId>, strength: real, count: int,
                        confidence: real)
    requires InputOf(s, {}, sr).InRange()
  {
    if premises <= SupportOf(s) then
      LayerBKeys(s, sr);
      UnitOver(LayerB(s, sr), premises)
      && count == 1 && confidence == sr.times(strength, BodyProduct(sr, LayerB(s, sr), premises))
    else count == 0 && confidence == 0.0
  }

  lemma SupportedWorth(s: ActiveSubgraph, d: Derivation, strength: real, sr: Semiring)
    requires InputOf(s, {}, sr).InRange() && Unit(strength) && Absent(s, d.conclusion)
    requires d.body <= SupportOf(s)
    ensures var t := Augmented(s, d, strength);
            && InputOf(t, {}, sr).InRange() && d.conclusion in LayerB(t, sr) && UnitOver(LayerB(s, sr), d.body)
            && LayerB(t, sr)[d.conclusion] == sr.times(strength, BodyProduct(sr, LayerB(s, sr), d.body))
  {
    hide *;
    var t := Augmented(s, d, strength);
    AugmentedInRange(s, d, strength, sr);
    OthersKeepLayerB(s, d, strength, sr);
    NewConclusionGrounds(s, d, strength);
    LayerBKeys(s, sr);
    var v := InputOf(t, SupportOf(t), sr);
    RangeIgnoresSupport(t, SupportOf(t), sr);
    AugmentedRule(s, d, strength, sr);
    OneRuleValue(v, LayerB(t, sr), d);
    SameUnits(LayerB(t, sr), LayerB(s, sr), d.body);
    LawfulOf(s, sr);
    BodyCongruent(sr, LayerB(t, sr), LayerB(s, sr), d.body);
  }

  lemma AugmentedRule(s: ActiveSubgraph, d: Derivation, strength: real, sr: Semiring)
    requires Absent(s, d.conclusion)
    ensures var t := Augmented(s, d, strength);
            var v := InputOf(t, SupportOf(t), sr);
            && d in v.graph.derivations && d.conclusion !in v.graph.baseFacts
            && v.StrengthOf(d) == strength && v.sr == sr && v.supported == SupportOf(t)
            && (v.Grounded(d) <==> d.conclusion in SupportOf(t) && d.body <= SupportOf(t))
            && forall e :: e in v.graph.derivations && e.conclusion == d.conclusion ==> e == d
  {
    hide Support;
  }

  lemma SameUnits(w: map<NodeId, real>, w': map<NodeId, real>, body: set<NodeId>)
    requires UnitOver(w, body) && body <= w'.Keys && forall a :: a in body ==> w[a] == w'[a]
    ensures UnitOver(w', body)
  {
  }

  lemma LawfulOf(s: ActiveSubgraph, sr: Semiring)
    requires InputOf(s, {}, sr).InRange()
    ensures Lawful(sr)
  {
  }

  /** The annotations computed on the augmented graph are what the conclusion is worth before it. */
  lemma ConclusionIsWorth(s: ActiveSubgraph, d: Derivation, strength: real, sr: Semiring, count: int, confidence: real)
    requires InputOf(s, {}, sr).InRange() && Unit(strength) && Absent(s, d.conclusion)
    requires InputOf(Augmented(s, d, strength), {}, sr).InRange()
    requires Annotates(Augmented(s, d, strength), sr, d.conclusion, count, confidence)
    ensures Worth(s, sr, d.body, strength, count, confidence)
  {
    hide SupportOf, LayerB, Absent, Augmented, UnitOver;
    NewConclusionCounts(s, d, strength, sr, count, confidence);
    NewConclusionGrounds(s, d, strength);
    if d.body <= SupportOf(s) {
      SupportedWorth(s, d, strength, sr);
    }
  }
}
