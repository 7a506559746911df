/**
 What the two semirings of src/iknos/core/confidence.py mean for a node's value.

 Under Gödel a value is a weakest link. `CutDecides` says it without the algebra: a node scores at
 least theta exactly when it can be derived from the facts of confidence at least theta by the rules
 of strength at least theta. So a value is always one of the degrees put in (`ValueIsAnInput`), and a
 long chain scores what a short one does (`GodelChainScores`); under Viterbi every step multiplies
 (`ViterbiChainScores`).
 */
module WeakestLink {
  import opened TruthMaintenance
  import opened Confidence
  import opened Valuation
  import opened ProofTrees

  // ---------------------------------------------------------------- bodies

  /** Under Gödel a body is exactly as strong as its weakest antecedent. */
  lemma {:induction false} WeakestAntecedent(w: map<NodeId, real>, body: set<NodeId>) returns (weakest: NodeId)
    requires UnitOver(w, body) && body != {}
    ensures weakest in body && BodyProduct(GODEL, w, body) == w[weakest]
    ensures forall a :: a in body ==> w[weakest] <= w[a]
  {
    GodelIsLawful();
    hide Lawful;
    var a :| a in body;
    weakest := a;
    BodyAnyOrder(GODEL, w, body, a);
    if body - {a} == {} {
      assert body == {a};
    } else {
      var b := WeakestAntecedent(w, body - {a});
      weakest := if w[b] < w[a] then b else a;
    }
  }

  /** Under Viterbi two antecedents are multiplied. */
  lemma TwoAntecedents(w: map<NodeId, real>, a: NodeId, b: NodeId)
    requires a != b && UnitOver(w, {a, b})
    ensures BodyProduct(VITERBI, w, {a, b}) == w[a] * w[b]
    ensures BodyProduct(GODEL, w, {a, b}) == if w[a] <= w[b] then w[a] else w[b]
  {
    ViterbiIsLawful();
    hide Lawful;
    assert {a, b} - {b} == {a} && {a} - {a} == {};
    BodyAnyOrder(VITERBI, w, {a, b}, b);
    BodyAnyOrder(VITERBI, w, {a}, a);
    assert BodyProduct(VITERBI, w, {}) == 1.0;
    var weakest := WeakestAntecedent(w, {a, b});
  }

  // ---------------------------------------------------------------- the cut

  /** The degree of a fact or a rule is at least theta; a missing one counts as full. */
  ghost predicate FactReaches(v: Input, theta: real, n: NodeId) {
    n in v.baseConfidence ==> v.baseConfidence[n] >= theta
  }

  ghost predicate RuleReaches(v: Input, theta: real, d: Derivation) {
    d in v.strength ==> v.strength[d] >= theta
  }

  /** The certified facts of degree at least theta. */
  ghost function StrongFacts(v: Input, theta: real): set<NodeId> {
    set n | n in v.graph.baseFacts && n in v.supported && FactReaches(v, theta, n)
  }

  /** The rules inside the certified set of degree at least theta. */
  ghost function StrongRules(v: Input, theta: real): set<Derivation> {
    set d | d in v.graph.derivations && d.conclusion in v.supported && d.body <= v.supported && RuleReaches(v, theta, d)
  }

  /** What follows from these alone. */
  ghost function Cut(v: Input, theta: real): set<NodeId> {
    Support(StrongFacts(v, theta), StrongRules(v, theta))
  }

  /** A proof that weighs theta uses only degrees that reach it. */
  lemma {:induction false} HeavyProofIsInCut(v: Input, theta: real, t: ProofTree, n: NodeId)
    requires v.InRange() && v.sr == GODEL && 0.0 < theta <= 1.0 && Proves(v, t, n) && Weight(v, t) >= theta
    requires exists conf :: LeastFixpoint(v, conf)
    ensures n in Cut(v, theta)
    decreases t
  {
    SupportIsLeast(StrongFacts(v, theta), StrongRules(v, theta));
    if t.Rule? {
      RuleWeight(v, t, n);
      var weights := PremiseWeights(v, t.premises);
      WeightsInUnit(v, t, n);
      hide Weight, LeastFixpoint;
      HeavyRule(v, theta, t.rule, weights);
      forall a | a in t.rule.body
        ensures a in Cut(v, theta)
      {
        HeavyProofIsInCut(v, theta, t.premises[a], a);
      }
      assert t.rule in StrongRules(v, theta);
    }
  }

  lemma WeightsInUnit(v: Input, t: ProofTree, n: NodeId)
    requires v.InRange() && Proves(v, t, n) && t.Rule? && exists conf :: LeastFixpoint(v, conf)
    ensures UnitOver(PremiseWeights(v, t.premises), t.rule.body)
  {
    var conf :| LeastFixpoint(v, conf);
    forall a | a in t.rule.body
      ensures Unit(Weight(v, t.premises[a]))
    {
      ProofBelow(v, conf, t.premises[a], a);
    }
  }

  lemma HeavyRule(v: Input, theta: real, d: Derivation, weights: map<NodeId, real>)
    requires v.InRange() && UnitOver(weights, d.body)
    requires v.sr.times(v.StrengthOf(d), BodyProduct(v.sr, weights, d.body)) >= theta
    ensures RuleReaches(v, theta, d) && forall a :: a in d.body ==> weights[a] >= theta
  {
    BodyInUnit(v.sr, weights, d.body);
    TimesBelow(v.sr, v.StrengthOf(d), BodyProduct(v.sr, weights, d.body));
    forall a | a in d.body
      ensures weights[a] >= theta
    {
      BodyBelow(v.sr, weights, d.body, a);
    }
  }

  /** Every rule of the cut passes theta on. */
  lemma CutRuleReaches(v: Input, conf: map<NodeId, real>, theta: real, d: Derivation)
    requires v.InRange() && v.sr == GODEL && LeastFixpoint(v, conf) && theta <= 1.0
    requires v.Grounds(d, d.conclusion) && RuleReaches(v, theta, d)
    requires forall a :: a in d.body ==> conf[a] >= theta
    ensures conf[d.conclusion] >= theta
  {
    NodeValueIsBest(v, conf, d.conclusion);
    assert UnitOver(conf, d.body);
    if d.body != {} {
      var weakest := WeakestAntecedent(conf, d.body);
    }
    hide v.NodeValue, LeastFixpoint;
  }

  /** Under Gödel a node scores at least theta exactly when it follows from what reaches theta. */
  lemma CutDecides(v: Input, conf: map<NodeId, real>, theta: real, n: NodeId)
    requires v.InRange() && v.sr == GODEL && LeastFixpoint(v, conf) && 0.0 < theta <= 1.0 && n in v.supported
    ensures conf[n] >= theta <==> n in Cut(v, theta)
  {
    ValueIsBestProof(v, conf, n);
    if conf[n] >= theta {
      var t :| Proves(v, t, n) && Weight(v, t) == conf[n];
      HeavyProofIsInCut(v, theta, t, n);
    }
    CutReaches(v, conf, theta);
  }

  lemma CutReaches(v: Input, conf: map<NodeId, real>, theta: real)
    requires v.InRange() && v.sr == GODEL && LeastFixpoint(v, conf) && 0.0 < theta <= 1.0
    ensures forall n :: n in Cut(v, theta) ==> n in v.supported && conf[n] >= theta
  {
    var high := set n | n in v.supported && conf[n] >= theta;
    HighIsClosed(v, conf, theta, high);
    hide LeastFixpoint, v.InRange, StrongFacts, StrongRules, Closed;
    SupportIsLeast(StrongFacts(v, theta), StrongRules(v, theta));
  }

  lemma HighIsClosed(v: Input, conf: map<NodeId, real>, theta: real, high: set<NodeId>)
    requires v.InRange() && v.sr == GODEL && LeastFixpoint(v, conf) && 0.0 < theta <= 1.0
    requires forall n :: n in high <==> n in v.supported && conf[n] >= theta
    ensures Closed(StrongFacts(v, theta), StrongRules(v, theta), high)
  {
    hide LeastFixpoint, v.InRange, FactReaches, RuleReaches;
    forall n | n in StrongFacts(v, theta)
      ensures n in high
    {
      FactIsHigh(v, conf, theta, n);
    }
    forall d | d in StrongRules(v, theta) && d.body <= high
      ensures d.conclusion in high
    {
      CutRuleReaches(v, conf, theta, d);
    }
  }

  lemma FactIsHigh(v: Input, conf: map<NodeId, real>, theta: real, n: NodeId)
    requires v.InRange() && LeastFixpoint(v, conf) && theta <= 1.0
    requires n in v.graph.baseFacts && n in v.supported && FactReaches(v, theta, n)
    ensures conf[n] >= theta
  {
    NodeValueIsBest(v, conf, n);
    hide v.NodeValue;
  }

  // ---------------------------------------------------------------- no new degrees

  /** The degrees put in, and none and full. */
  ghost predicate IsInput(v: Input, x: real) {
    || x == 0.0 || x == 1.0
    || (exists n :: n in v.baseConfidence && v.baseConfidence[n] == x)
    || (exists d :: d in v.strength && v.strength[d] == x)
  }

  lemma {:induction false} WeightIsAnInput(v: Input, conf: map<NodeId, real>, t: ProofTree, n: NodeId)
    requires v.InRange() && v.sr == GODEL && LeastFixpoint(v, conf) && Proves(v, t, n)
    ensures IsInput(v, Weight(v, t))
    decreases t
  {
    if t.Rule? {
      RuleWeight(v, t, n);
      var weights := PremiseWeights(v, t.premises);
      WeightsInUnit(v, t, n);
      if t.rule.body != {} {
        var weakest := WeakestAntecedent(weights, t.rule.body);
        WeightIsAnInput(v, conf, t.premises[weakest], weakest);
      }
      hide Weight, LeastFixpoint;
    }
  }

  /** Under Gödel no value is new: each is a base confidence, a strength, zero or one. */
  lemma ValueIsAnInput(v: Input, conf: map<NodeId, real>, n: NodeId)
    requires v.InRange() && v.sr == GODEL && LeastFixpoint(v, conf) && n in v.supported
    ensures IsInput(v, conf[n])
  {
    ValueIsBestProof(v, conf, n);
    if HasProof(v, n) {
      var t :| Proves(v, t, n) && Weight(v, t) == conf[n];
      WeightIsAnInput(v, conf, t, n);
    }
  }

  // ---------------------------------------------------------------- chains

  /** Each node of the chain but the first rests on the one before it alone, by a rule of strength
      `s`. */
  ghost predicate IsChain(v: Input, chain: seq<NodeId>, s: real) {
    && (forall i :: 0 <= i < |chain| ==> chain[i] in v.supported)
    && forall i :: 0 <= i < |chain| - 1 ==> IsStep(v, chain[i], chain[i + 1], s)
  }

  ghost predicate IsStep(v: Input, a: NodeId, c: NodeId, s: real) {
    var d := Derivation(c, {a});
    && c !in v.graph.baseFacts
    && d in v.graph.derivations && d in v.strength && v.strength[d] == s
    && forall e :: e in v.graph.derivations && e.conclusion == c ==> e == d
  }

  lemma StepValue(v: Input, conf: map<NodeId, real>, a: NodeId, c: NodeId, s: real)
    requires v.InRange() && LeastFixpoint(v, conf) && a in v.supported && c in v.supported && IsStep(v, a, c, s)
    ensures Unit(s) && conf[c] == v.sr.times(s, conf[a])
  {
    var d := Derivation(c, {a});
    NodeValueIsBest(v, conf, c);
    assert v.Grounds(d, c);
    assert UnitOver(conf, {a});
    BodyAnyOrder(v.sr, conf, {a}, a);
    assert {a} - {a} == {};
    assert LawsOfTwo(v.sr, conf[a], conf[a]);
    BodyInUnit(v.sr, conf, d.body);
    TimesBelow(v.sr, s, BodyProduct(v.sr, conf, d.body));
    hide v.NodeValue, LeastFixpoint, Lawful;
    assert v.Contribution(conf, d) == v.sr.times(s, conf[a]);
  }

  lemma TimesOf(sr: Semiring, a: real, b: real)
    ensures sr == GODEL ==> sr.times(a, b) == if a <= b then a else b
    ensures sr == VITERBI ==> sr.times(a, b) == a * b
  {
  }

  lemma NextInChain(v: Input, conf: map<NodeId, real>, chain: seq<NodeId>, s: real, i: nat)
    requires v.InRange() && LeastFixpoint(v, conf) && IsChain(v, chain, s) && 0 < i < |chain|
    ensures chain[i - 1] in conf && chain[i] in conf && conf[chain[i]] == v.sr.times(s, conf[chain[i - 1]])
  {
    assert IsStep(v, chain[i - 1], chain[i], s);
    StepValue(v, conf, chain[i - 1], chain[i], s);
    hide v.NodeValue, IsStep;
  }

  /** Along a chain Gödel keeps the weaker of start and strength. */
  lemma {:induction false} GodelChainScores(v: Input, conf: map<NodeId, real>, chain: seq<NodeId>, s: real, i: nat)
    requires v.InRange() && v.sr == GODEL && LeastFixpoint(v, conf) && IsChain(v, chain, s) && 0 < i < |chain|
    ensures chain[0] in conf && chain[i] in conf
    ensures conf[chain[i]] == if conf[chain[0]] <= s then conf[chain[0]] else s
  {
    hide *;
    NextInChain(v, conf, chain, s, i);
    TimesOf(v.sr, s, conf[chain[i - 1]]);
    if i > 1 {
      GodelChainScores(v, conf, chain, s, i - 1);
    }
  }

  /** Viterbi multiplies by the strength at every step. */
  lemma {:induction false} ViterbiChainScores(v: Input, conf: map<NodeId, real>, chain: seq<NodeId>, s: real, i: nat)
    requires v.InRange() && v.sr == VITERBI && LeastFixpoint(v, conf) && IsChain(v, chain, s) && i < |chain|
    ensures chain[0] in conf && chain[i] in conf
    ensures conf[chain[i]] == conf[chain[0]] * Pow(s, i)
  {
    hide *;
    if i > 0 {
      NextInChain(v, conf, chain, s, i);
      TimesOf(v.sr, s, conf[chain[i - 1]]);
      ViterbiChainScores(v, conf, chain, s, i - 1);
      OneMoreFactor(conf[chain[0]], s, i);
    } else {
      NoFactor(s);
      InChain(v, conf, chain, s);
    }
  }

  lemma InChain(v: Input, conf: map<NodeId, real>, chain: seq<NodeId>, s: real)
    requires LeastFixpoint(v, conf) && IsChain(v, chain, s) && chain != []
    ensures chain[0] in conf
  {
  }

  lemma NoFactor(s: real)
    ensures Pow(s, 0) == 1.0
  {
  }

  lemma OneMoreFactor(x: real, s: real, i: nat)
    requires i > 0
    ensures s * (x * Pow(s, i - 1)) == x * Pow(s, i)
  {
    assert Pow(s, i) == s * Pow(s, i - 1);
    hide Pow;
  }
}
