/**
 What a Layer B confidence means: the strength of the best proof.

 A proof tree of a node is a base fact, or a derivation with one proof tree per antecedent.
 The value `valuate` returns for a node is the maximum of the weights of its proof trees, so
 it is positive only for nodes that base facts really derive.
 */
module ProofTrees {
  import opened TruthMaintenance
  import opened Confidence
  import opened Valuation

  datatype ProofTree = Fact(node: NodeId) | Rule(rule: Derivation, premises: map<NodeId, ProofTree>)

  /** `t` proves `n` inside the certified set. */
  ghost predicate Proves(v: Input, t: ProofTree, n: NodeId)
    decreases t
  {
    match t
    case Fact(m) => m == n && n in v.graph.baseFacts && n in v.supported
    case Rule(d, premises) =>
      && v.Grounds(d, n)
      && premises.Keys == d.body
      && (forall a :: a in premises ==> Proves(v, premises[a], a))
  }

  /** The product, over the whole tree, of leaf confidences and rule strengths. */
  ghost function Weight(v: Input, t: ProofTree): real
    decreases t
  {
    match t
    case Fact(m) => v.BaseOf(m)
    case Rule(d, premises) =>
      var weights := map a | a in premises :: Weight(v, premises[a]);
      if d.body <= weights.Keys then v.sr.times(v.StrengthOf(d), BodyProduct(v.sr, weights, d.body)) else 0.0
  }

  ghost function PremiseWeights(v: Input, premises: map<NodeId, ProofTree>): map<NodeId, real> {
    map a | a in premises :: Weight(v, premises[a])
  }

  lemma RuleWeight(v: Input, t: ProofTree, n: NodeId)
    requires Proves(v, t, n) && t.Rule?
    ensures PremiseWeights(v, t.premises).Keys == t.rule.body
    ensures Weight(v, t)
         == v.sr.times(v.StrengthOf(t.rule), BodyProduct(v.sr, PremiseWeights(v, t.premises), t.rule.body))
  {
  }

  lemma RuleBelow(v: Input, conf: map<NodeId, real>, d: Derivation, weights: map<NodeId, real>)
    requires v.InRange() && v.Assigns(conf) && v.Grounded(d) && weights.Keys == d.body
    requires forall a :: a in d.body ==> 0.0 <= weights[a] <= conf[a]
    ensures 0.0 <= v.sr.times(v.StrengthOf(d), BodyProduct(v.sr, weights, d.body)) <= v.Contribution(conf, d)
  {
    assert UnitOver(weights, d.body) && UnitOver(conf, d.body);
    BodyInUnit(v.sr, weights, d.body);
    BodyInUnit(v.sr, conf, d.body);
    BodyMonotone(v.sr, weights, conf, d.body);
    TimesMonotone(v.sr, v.StrengthOf(d), BodyProduct(v.sr, weights, d.body),
                  v.StrengthOf(d), BodyProduct(v.sr, conf, d.body));
    TimesBelow(v.sr, v.StrengthOf(d), BodyProduct(v.sr, weights, d.body));
  }

  /** No proof is stronger than the solution of the grounding equations. */
  lemma {:induction false} ProofBelow(v: Input, conf: map<NodeId, real>, t: ProofTree, n: NodeId)
    requires v.InRange() && Fixpoint(v, conf) && Proves(v, t, n)
    ensures n in v.supported && 0.0 <= Weight(v, t) <= conf[n]
    decreases t
  {
    NodeValueIsBest(v, conf, n);
    if t.Rule? {
      RuleWeight(v, t, n);
      forall a | a in t.rule.body
        ensures 0.0 <= PremiseWeights(v, t.premises)[a] <= conf[a]
      {
        ProofBelow(v, conf, t.premises[a], a);
      }
      RuleBelow(v, conf, t.rule, PremiseWeights(v, t.premises));
    } else {
      StartInUnit(v, n);
    }
  }

  ghost predicate HasProofOf(v: Input, n: NodeId, w: real) {
    exists t :: Proves(v, t, n) && Weight(v, t) == w
  }

  ghost function ProofOf(v: Input, n: NodeId, w: real): (t: ProofTree)
    requires HasProofOf(v, n, w)
    ensures Proves(v, t, n) && Weight(v, t) == w
  {
    var t :| Proves(v, t, n) && Weight(v, t) == w;
    t
  }

  /** Behind a positive iterate stands a proof of that weight: the ground that attains it, over
      the proofs of the round before. */
  lemma {:induction false} PositiveHasProof(v: Input, k: nat, n: NodeId)
    requires v.InRange() && n in v.supported && Iterate(v, k)[n] > 0.0
    ensures HasProofOf(v, n, Iterate(v, k)[n])
    decreases k
  {
    hide Iterate, v.NodeValue, v.Contribution, v.Start, Weight, Proves, HasProofOf;
    IterateZero(v);
    var before := Iterate(v, k - 1);
    IterateStep(v, k - 1);
    NodeValueIsBest(v, before, n);
    if v.NodeValue(before, n) == v.Start(n) {
      FactHasProof(v, n);
    } else {
      var d :| v.Grounds(d, n) && v.Contribution(before, d) == v.NodeValue(before, n);
      PositiveAntecedents(v, before, d);
      forall a | a in d.body
        ensures HasProofOf(v, a, before[a])
      {
        PositiveHasProof(v, k - 1, a);
      }
      RuleHasProof(v, before, d, n);
    }
  }

  lemma FactHasProof(v: Input, n: NodeId)
    requires v.InRange() && n in v.supported && v.Start(n) > 0.0
    ensures HasProofOf(v, n, v.Start(n))
  {
    assert Proves(v, Fact(n), n) && Weight(v, Fact(n)) == v.Start(n);
  }

  lemma RuleHasProof(v: Input, conf: map<NodeId, real>, d: Derivation, n: NodeId)
    requires v.InRange() && v.Assigns(conf) && v.Grounds(d, n)
    requires forall a :: a in d.body ==> HasProofOf(v, a, conf[a])
    ensures HasProofOf(v, n, v.Contribution(conf, d))
  {
    var premises := map a | a in d.body :: ProofOf(v, a, conf[a]);
    SameProduct(v, conf, d, premises);
    assert Proves(v, Rule(d, premises), n);
  }

  lemma PositiveAntecedents(v: Input, conf: map<NodeId, real>, d: Derivation)
    requires v.InRange() && v.Assigns(conf) && v.Grounded(d) && v.Contribution(conf, d) > 0.0
    ensures forall a :: a in d.body ==> conf[a] > 0.0
  {
    forall a | a in d.body
      ensures conf[a] > 0.0
    {
      ContributionBelow(v, conf, d, a);
    }
  }

  lemma SameProduct(v: Input, conf: map<NodeId, real>, d: Derivation, premises: map<NodeId, ProofTree>)
    requires v.InRange() && v.Assigns(conf) && v.Grounded(d) && premises.Keys == d.body
    requires forall a :: a in d.body ==> Weight(v, premises[a]) == conf[a]
    ensures Weight(v, Rule(d, premises)) == v.Contribution(conf, d)
  {
    var weights := PremiseWeights(v, premises);
    assert weights.Keys == d.body && UnitOver(weights, d.body);
    BodyCongruent(v.sr, weights, conf, d.body);
  }

  ghost predicate HasProof(v: Input, n: NodeId) {
    exists t :: Proves(v, t, n)
  }

  /** The value of every node is the maximum weight of its proofs, and zero if it has none. */
  lemma ValueIsBestProof(v: Input, conf: map<NodeId, real>, n: NodeId)
    requires v.InRange() && LeastFixpoint(v, conf) && n in v.supported
    ensures forall t | Proves(v, t, n) :: Weight(v, t) <= conf[n]
    ensures HasProof(v, n) ==> exists t :: Proves(v, t, n) && Weight(v, t) == conf[n]
    ensures !HasProof(v, n) ==> conf[n] == 0.0
  {
    assert Unit(conf[n]);
    hide Weight, Proves, LeastFixpoint, Fixpoint, Iterate, v.InRange, v.Assigns, v.NodeValue, v.Grounded;
    forall t | Proves(v, t, n)
      ensures 0.0 <= Weight(v, t) <= conf[n]
    {
      ProofBelow(v, conf, t, n);
    }
    var k := |v.supported|;
    ConvergesInNodeManyRounds(v);
    StableIterateIsLeast(v, k);
    LeastFixpointIsUnique(v, conf, Iterate(v, k));
    if conf[n] > 0.0 {
      PositiveHasProof(v, k, n);
    }
  }

  // ---------------------------------------------------------------- foundedness

  /** The derivations the engine indexes. */
  ghost function GroundedRules(v: Input): set<Derivation> {
    set d | d in v.graph.derivations && v.Grounded(d)
  }

  /** The nodes of `supported` that the base facts inside it really derive. */
  ghost function Founded(v: Input): set<NodeId> {
    Support(v.graph.baseFacts * v.supported, GroundedRules(v))
  }

  lemma {:induction false} ProvenIsFounded(v: Input, t: ProofTree, n: NodeId)
    requires Proves(v, t, n)
    ensures n in Founded(v)
    decreases t
  {
    SupportIsLeast(v.graph.baseFacts * v.supported, GroundedRules(v));
    if t.Rule? {
      forall a | a in t.rule.body
        ensures a in Founded(v)
      {
        ProvenIsFounded(v, t.premises[a], a);
      }
      assert t.rule in GroundedRules(v) && t.rule.body <= Founded(v);
    }
  }

  ghost function SomeProof(v: Input, n: NodeId): (t: ProofTree)
    requires HasProof(v, n)
    ensures Proves(v, t, n)
  {
    var t :| Proves(v, t, n);
    t
  }

  lemma FoundedIsProven(v: Input, n: NodeId)
    requires n in Founded(v)
    ensures HasProof(v, n)
  {
    var proven := set m | m in v.supported && HasProof(v, m);
    forall m | m in v.graph.baseFacts * v.supported
      ensures m in proven
    {
      assert Proves(v, Fact(m), m);
    }
    forall d | d in GroundedRules(v) && d.body <= proven
      ensures d.conclusion in proven
    {
      var premises := map a | a in d.body :: SomeProof(v, a);
      assert Proves(v, Rule(d, premises), d.conclusion);
    }
    assert Closed(v.graph.baseFacts * v.supported, GroundedRules(v), proven);
    SupportIsLeast(v.graph.baseFacts * v.supported, GroundedRules(v));
  }

  ghost predicate PositiveInputs(v: Input) {
    && (forall n :: n in v.baseConfidence ==> v.baseConfidence[n] > 0.0)
    && (forall d :: d in v.strength ==> v.strength[d] > 0.0)
  }

  /** A product of positive confidences is positive; true of both shipped semirings. */
  ghost predicate ZeroFree(sr: Semiring) {
    forall a, b {:trigger sr.times(a, b)} | 0.0 < a <= 1.0 && 0.0 < b <= 1.0 :: sr.times(a, b) > 0.0
  }

  lemma ShippedSemiringsAreZeroFree()
    ensures ZeroFree(GODEL) && ZeroFree(VITERBI)
  {
    forall a: real, b: real | 0.0 < a && 0.0 < b
      ensures ViterbiTimes(a, b) > 0.0
    {
    }
  }

  lemma {:induction false} PositiveBody(sr: Semiring, w: map<NodeId, real>, body: set<NodeId>)
    requires Lawful(sr) && ZeroFree(sr) && UnitOver(w, body)
    requires forall a :: a in body ==> w[a] > 0.0
    ensures BodyProduct(sr, w, body) > 0.0
  {
    if body != {} {
      var a :| a in body && BodyProduct(sr, w, body) == sr.times(BodyProduct(sr, w, body - {a}), w[a]);
      PositiveBody(sr, w, body - {a});
      BodyInUnit(sr, w, body - {a});
    }
  }

  lemma {:induction false} ProofIsPositive(v: Input, conf: map<NodeId, real>, t: ProofTree, n: NodeId)
    requires v.InRange() && PositiveInputs(v) && ZeroFree(v.sr) && Fixpoint(v, conf) && Proves(v, t, n)
    ensures Weight(v, t) > 0.0
    decreases t
  {
    if t.Rule? {
      var weights := PremiseWeights(v, t.premises);
      RuleWeight(v, t, n);
      forall a | a in t.rule.body
        ensures 0.0 < weights[a] <= 1.0
      {
        ProofIsPositive(v, conf, t.premises[a], a);
        ProofBelow(v, conf, t.premises[a], a);
      }
      hide Weight;
      assert UnitOver(weights, t.rule.body);
      PositiveBody(v.sr, weights, t.rule.body);
      BodyInUnit(v.sr, weights, t.rule.body);
    }
  }

  /** Foundedness decides confidence: with positive inputs a node scores above zero exactly
      when base facts derive it. An unfounded cycle scores zero even if it is passed in. */
  lemma PositiveIffFounded(v: Input, conf: map<NodeId, real>, n: NodeId)
    requires v.InRange() && PositiveInputs(v) && ZeroFree(v.sr) && LeastFixpoint(v, conf) && n in v.supported
    ensures conf[n] > 0.0 <==> n in Founded(v)
  {
    ValueIsBestProof(v, conf, n);
    if HasProof(v, n) {
      var t := SomeProof(v, n);
      ProofIsPositive(v, conf, t, n);
      ProvenIsFounded(v, t, n);
    } else if n in Founded(v) {
      FoundedIsProven(v, n);
    }
  }

  /** On the set Layer A certifies, every node has a proof: the gate removes nothing founded. */
  lemma CertifiedIsFounded(v: Input)
    requires v.supported == Support(v.graph.baseFacts, v.graph.Rules())
    ensures Founded(v) == v.supported
  {
    var base, rules := v.graph.baseFacts * v.supported, GroundedRules(v);
    SupportIsLeast(v.graph.baseFacts, v.graph.Rules());
    SupportIsLeast(base, rules);
    assert Closed(base, rules, v.supported);
    forall d | d in v.graph.Rules() && d.body <= Founded(v)
      ensures d.conclusion in Founded(v)
    {
      assert d in rules;
    }
    assert Closed(v.graph.baseFacts, v.graph.Rules(), Founded(v));
  }
}
