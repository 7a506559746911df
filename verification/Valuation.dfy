/**
 The valuation engine of src/iknos/core/confidence.py over the algebra of Confidence.dfy.
 */
module Valuation {
  import opened Sets
  import opened TruthMaintenance
  import opened Confidence

  /** What `valuate` is given: a graph, the set Layer A certified, the two side maps, and the
      semiring. A missing entry of a side map reads as `one`. */
  datatype Input = Input(graph: Graph, supported: set<NodeId>, baseConfidence: map<NodeId, real>,
                         strength: map<Derivation, real>, sr: Semiring) {

    ghost predicate InRange() {
      && Lawful(sr)
      && (forall n :: n in baseConfidence ==> Unit(baseConfidence[n]))
      && (forall d :: d in strength ==> Unit(strength[d]))
    }

    function BaseOf(n: NodeId): real {
      if n in baseConfidence then baseConfidence[n] else sr.one
    }

    function StrengthOf(d: Derivation): real {
      if d in strength then strength[d] else sr.one
    }

    /** The foundedness gate: head and whole body certified. */
    predicate Grounded(d: Derivation) {
      d.conclusion in supported && d.body <= supported
    }

    /** `d` is one of the grounds of `n`. */
    ghost predicate Grounds(d: Derivation, n: NodeId) {
      d in graph.derivations && Grounded(d) && d.conclusion == n
    }

    ghost predicate Assigns(conf: map<NodeId, real>) {
      conf.Keys == supported && UnitOver(conf, supported)
    }

    ghost function Contribution(conf: map<NodeId, real>, d: Derivation): real
      requires Assigns(conf) && Grounded(d)
    {
      sr.times(StrengthOf(d), BodyProduct(sr, conf, d.body))
    }

    /** The grounds of `n` among the first `k` derivations, in order. */
    ghost function GroundsOf(n: NodeId, k: nat): (ds: seq<Derivation>)
      requires k <= |graph.derivations|
      ensures forall d :: d in ds
                     <==> exists i :: 0 <= i < k && graph.derivations[i] == d && Grounded(d) && d.conclusion == n
    {
      if k == 0 then []
      else
        var d := graph.derivations[k - 1];
        if Grounded(d) && d.conclusion == n then GroundsOf(n, k - 1) + [d] else GroundsOf(n, k - 1)
    }

    ghost function BestOver(conf: map<NodeId, real>, ds: seq<Derivation>, start: real): real
      requires Assigns(conf) && forall d :: d in ds ==> Grounded(d)
    {
      if ds == [] then start
      else Max(BestOver(conf, ds[..|ds| - 1], start), Contribution(conf, ds[|ds| - 1]))
    }

    ghost function Start(n: NodeId): real {
      if n in graph.baseFacts then BaseOf(n) else sr.zero
    }

    /** The right-hand side of the grounding equation of `n`: its best ground. */
    ghost function NodeValue(conf: map<NodeId, real>, n: NodeId): real
      requires Assigns(conf)
    {
      BestOver(conf, GroundsOf(n, |graph.derivations|), Start(n))
    }

    ghost function Round(conf: map<NodeId, real>): map<NodeId, real>
      requires Assigns(conf)
    {
      map n | n in supported :: NodeValue(conf, n)
    }
  }

  lemma StartInUnit(v: Input, n: NodeId)
    requires v.InRange()
    ensures Unit(v.Start(n))
  {
  }

  lemma ContributionInUnit(v: Input, conf: map<NodeId, real>, d: Derivation)
    requires v.InRange() && v.Assigns(conf) && v.Grounded(d)
    ensures Unit(v.Contribution(conf, d))
  {
    BodyInUnit(v.sr, conf, d.body);
    TimesBelow(v.sr, v.StrengthOf(d), BodyProduct(v.sr, conf, d.body));
  }

  /** The superiority at the heart of convergence: a derivation is never stronger than any of
      its antecedents. */
  lemma ContributionBelow(v: Input, conf: map<NodeId, real>, d: Derivation, a: NodeId)
    requires v.InRange() && v.Assigns(conf) && v.Grounded(d) && a in d.body
    ensures v.Contribution(conf, d) <= conf[a]
  {
    BodyInUnit(v.sr, conf, d.body);
    TimesBelow(v.sr, v.StrengthOf(d), BodyProduct(v.sr, conf, d.body));
    BodyBelow(v.sr, conf, d.body, a);
  }

  lemma ContributionMonotone(v: Input, conf: map<NodeId, real>, conf': map<NodeId, real>, d: Derivation)
    requires v.InRange() && v.Assigns(conf) && v.Assigns(conf') && v.Grounded(d)
    requires forall a :: a in d.body ==> conf[a] <= conf'[a]
    ensures v.Contribution(conf, d) <= v.Contribution(conf', d)
  {
    BodyInUnit(v.sr, conf, d.body);
    BodyInUnit(v.sr, conf', d.body);
    BodyMonotone(v.sr, conf, conf', d.body);
    TimesMonotone(v.sr, v.StrengthOf(d), BodyProduct(v.sr, conf, d.body),
                  v.StrengthOf(d), BodyProduct(v.sr, conf', d.body));
  }

  lemma {:induction false} BestOverIsBest(v: Input, conf: map<NodeId, real>, ds: seq<Derivation>, start: real)
    requires v.InRange() && v.Assigns(conf) && Unit(start)
    requires forall d :: d in ds ==> v.Grounded(d)
    ensures Unit(v.BestOver(conf, ds, start))
    ensures start <= v.BestOver(conf, ds, start)
    ensures forall d :: d in ds ==> v.Contribution(conf, d) <= v.BestOver(conf, ds, start)
    ensures v.BestOver(conf, ds, start) == start
         || exists d :: d in ds && v.Contribution(conf, d) == v.BestOver(conf, ds, start)
  {
    if ds != [] {
      var front, last := ds[..|ds| - 1], ds[|ds| - 1];
      assert ds == front + [last];
      BestOverIsBest(v, conf, front, start);
      ContributionInUnit(v, conf, last);
    }
  }

  /** `NodeValue` is an upper bound of the grounds of `n`, and one of them attains it. */
  lemma NodeValueIsBest(v: Input, conf: map<NodeId, real>, n: NodeId)
    requires v.InRange() && v.Assigns(conf)
    ensures Unit(v.NodeValue(conf, n))
    ensures v.Start(n) <= v.NodeValue(conf, n)
    ensures forall d :: v.Grounds(d, n) ==> v.Contribution(conf, d) <= v.NodeValue(conf, n)
    ensures v.NodeValue(conf, n) == v.Start(n)
         || exists d :: v.Grounds(d, n) && v.Contribution(conf, d) == v.NodeValue(conf, n)
  {
    var ds := v.GroundsOf(n, |v.graph.derivations|);
    StartInUnit(v, n);
    BestOverIsBest(v, conf, ds, v.Start(n));
    forall d | v.Grounds(d, n)
      ensures d in ds
    {
      var i :| 0 <= i < |v.graph.derivations| && v.graph.derivations[i] == d;
    }
    if v.NodeValue(conf, n) != v.Start(n) {
      var d :| d in ds && v.Contribution(conf, d) == v.NodeValue(conf, n);
      assert v.Grounds(d, n);
    }
  }

  lemma RoundAssigns(v: Input, conf: map<NodeId, real>)
    requires v.InRange() && v.Assigns(conf)
    ensures v.Assigns(v.Round(conf))
  {
    forall n | n in v.supported
      ensures Unit(v.NodeValue(conf, n))
    {
      NodeValueIsBest(v, conf, n);
    }
  }

  lemma NodeValueMonotone(v: Input, conf: map<NodeId, real>, conf': map<NodeId, real>, n: NodeId)
    requires v.InRange() && v.Assigns(conf) && v.Assigns(conf')
    requires forall a :: a in v.supported ==> conf[a] <= conf'[a]
    ensures v.NodeValue(conf, n) <= v.NodeValue(conf', n)
  {
    NodeValueIsBest(v, conf, n);
    NodeValueIsBest(v, conf', n);
    if v.NodeValue(conf, n) != v.Start(n) {
      var d :| v.Grounds(d, n) && v.Contribution(conf, d) == v.NodeValue(conf, n);
      ContributionMonotone(v, conf, conf', d);
    }
  }

  // ---------------------------------------------------------------- the Jacobi iterates

  ghost function Iterate(v: Input, k: nat): (conf: map<NodeId, real>)
    requires v.InRange()
    ensures v.Assigns(conf)
  {
    if k == 0 then map n | n in v.supported :: 0.0
    else
      RoundAssigns(v, Iterate(v, k - 1));
      v.Round(Iterate(v, k - 1))
  }

  lemma IterateZero(v: Input)
    requires v.InRange()
    ensures forall n :: n in v.supported ==> Iterate(v, 0)[n] == 0.0
  {
  }

  lemma IterateStep(v: Input, k: nat)
    requires v.InRange()
    ensures v.Assigns(Iterate(v, k)) && Iterate(v, k).Keys == v.supported
    ensures forall n :: n in v.supported ==> Iterate(v, k + 1)[n] == v.NodeValue(Iterate(v, k), n)
  {
  }

  lemma {:induction false} IteratesRise(v: Input, k: nat)
    requires v.InRange()
    ensures forall n :: n in v.supported ==> Iterate(v, k)[n] <= Iterate(v, k + 1)[n]
  {
    hide Iterate, v.NodeValue;
    IterateStep(v, k + 1);
    if k == 0 {
      IterateZero(v);
    } else {
      IteratesRise(v, k - 1);
      IterateStep(v, k - 1);
      IterateStep(v, k);
      forall n | n in v.supported
        ensures Iterate(v, k)[n] <= Iterate(v, k + 1)[n]
      {
        NodeValueMonotone(v, Iterate(v, k - 1), Iterate(v, k), n);
      }
    }
  }

  lemma {:induction false} IteratesRiseTo(v: Input, k: nat, m: nat, n: NodeId)
    requires v.InRange() && k <= m && n in v.supported
    ensures Iterate(v, k)[n] <= Iterate(v, m)[n]
    decreases m - k
  {
    if k < m {
      IteratesRise(v, k);
      IteratesRiseTo(v, k + 1, m, n);
    }
  }

  /** From round `k` on, the nodes of `settled` keep their value. */
  ghost predicate SettledFrom(v: Input, k: nat, settled: set<NodeId>)
    requires v.InRange()
  {
    settled <= v.supported && forall m, n | k <= m && n in settled :: Iterate(v, m)[n] == Iterate(v, k)[n]
  }

  /** While only `settled` has settled, no other node ever rises above the highest value any of
      them has in the next round: a derivation through an unsettled node is capped by that
      node, and a derivation from settled ones only has its final value already. */
  lemma {:induction false} CappedByNextRound(v: Input, k: nat, settled: set<NodeId>, top: real, m: nat, n: NodeId)
    requires v.InRange() && SettledFrom(v, k, settled)
    requires forall u :: u in v.supported - settled ==> Iterate(v, k + 1)[u] <= top
    requires k < m && n in v.supported - settled
    ensures Iterate(v, m)[n] <= top
    decreases m
  {
    hide Iterate, v.NodeValue, v.Contribution, v.Start;
    IterateStep(v, k);
    if m > k + 1 {
      IterateStep(v, m - 1);
      var before := Iterate(v, m - 1);
      NodeValueIsBest(v, before, n);
      NodeValueIsBest(v, Iterate(v, k), n);
      if v.NodeValue(before, n) != v.Start(n) {
        var d :| v.Grounds(d, n) && v.Contribution(before, d) == v.NodeValue(before, n);
        if d.body <= settled {
          assert forall a :: a in d.body ==> before[a] == Iterate(v, k)[a];
          ContributionMonotone(v, before, Iterate(v, k), d);
        } else {
          var a :| a in d.body && a !in settled;
          ContributionBelow(v, before, d, a);
          CappedByNextRound(v, k, settled, top, m - 1, a);
        }
      }
    }
  }

  lemma {:induction false} HighestOf(w: map<NodeId, real>, pool: set<NodeId>) returns (top: NodeId)
    requires pool != {} && pool <= w.Keys
    ensures top in pool && forall n :: n in pool ==> w[n] <= w[top]
  {
    var n :| n in pool;
    if pool == {n} {
      top := n;
    } else {
      assert pool - {n} != {};
      var t := HighestOf(w, pool - {n});
      top := if w[n] > w[t] then n else t;
    }
  }

  lemma Unsettled(nodes: set<NodeId>, settled: set<NodeId>)
    requires settled < nodes
    ensures nodes - settled != {}
  {
    assert forall n :: n in nodes ==> n in settled || n in nodes - settled;
    assert nodes - settled == {} ==> nodes <= settled;
  }

  /** Every round settles at least one more node: the highest of those still unsettled. */
  lemma SettleOneMore(v: Input, k: nat, settled: set<NodeId>) returns (u: NodeId)
    requires v.InRange() && SettledFrom(v, k, settled) && settled < v.supported
    ensures u in v.supported - settled && SettledFrom(v, k + 1, settled + {u})
  {
    hide Iterate;
    Unsettled(v.supported, settled);
    u := HighestOf(Iterate(v, k + 1), v.supported - settled);
    var top := Iterate(v, k + 1)[u];
    forall m, n | k + 1 <= m && n in settled + {u}
      ensures Iterate(v, m)[n] == Iterate(v, k + 1)[n]
    {
      if n == u {
        CappedByNextRound(v, k, settled, top, m, u);
        IteratesRiseTo(v, k + 1, m, u);
      }
    }
  }

  lemma {:induction false} SettledAfter(v: Input, k: nat) returns (settled: set<NodeId>)
    requires v.InRange() && k <= |v.supported|
    ensures SettledFrom(v, k, settled) && |settled| == k
  {
    settled := {};
    if k > 0 {
      settled := SettledAfter(v, k - 1);
      SubsetCardinality(settled, v.supported);
      assert settled != v.supported;
      var u := SettleOneMore(v, k - 1, settled);
      settled := settled + {u};
    }
  }

  /** Convergence: after as many rounds as there are nodes, nothing moves any more. */
  lemma ConvergesInNodeManyRounds(v: Input)
    requires v.InRange()
    ensures Iterate(v, |v.supported| + 1) == Iterate(v, |v.supported|)
  {
    var settled := SettledAfter(v, |v.supported|);
    SubsetCardinality(settled, v.supported);
  }

  // ---------------------------------------------------------------- the least fixpoint

  /** `conf` solves the grounding equations. */
  ghost predicate Fixpoint(v: Input, conf: map<NodeId, real>) {
    v.Assigns(conf) && forall n :: n in v.supported ==> conf[n] == v.NodeValue(conf, n)
  }

  ghost predicate LeastFixpoint(v: Input, conf: map<NodeId, real>) {
    && Fixpoint(v, conf)
    && forall y, n | Fixpoint(v, y) && n in v.supported :: conf[n] <= y[n]
  }

  lemma {:induction false} IteratesBelow(v: Input, y: map<NodeId, real>, k: nat, n: NodeId)
    requires v.InRange() && v.Assigns(y) && n in v.supported
    requires forall u :: u in v.supported ==> v.NodeValue(y, u) <= y[u]
    ensures Iterate(v, k)[n] <= y[n]
    decreases k
  {
    hide Iterate, v.NodeValue;
    IterateZero(v);
    if k > 0 {
      IterateStep(v, k - 1);
      forall u | u in v.supported
        ensures Iterate(v, k - 1)[u] <= y[u]
      {
        IteratesBelow(v, y, k - 1, u);
      }
      NodeValueMonotone(v, Iterate(v, k - 1), y, n);
    }
  }

  lemma StableIterateIsLeast(v: Input, k: nat)
    requires v.InRange() && Iterate(v, k + 1) == Iterate(v, k)
    ensures LeastFixpoint(v, Iterate(v, k))
  {
    var conf := Iterate(v, k);
    forall n | n in v.supported
      ensures conf[n] == v.NodeValue(conf, n)
    {
      assert Iterate(v, k + 1)[n] == v.NodeValue(conf, n);
    }
    forall y, n | Fixpoint(v, y) && n in v.supported
      ensures conf[n] <= y[n]
    {
      IteratesBelow(v, y, k, n);
    }
  }

  lemma LeastFixpointIsUnique(v: Input, conf: map<NodeId, real>, conf': map<NodeId, real>)
    requires LeastFixpoint(v, conf) && LeastFixpoint(v, conf')
    ensures conf == conf'
  {
    forall n | n in v.supported
      ensures conf[n] == conf'[n]
    {
      assert conf[n] <= conf'[n] && conf'[n] <= conf[n];
    }
  }

  // ---------------------------------------------------------------- growing the graph

  /** `v` has every base fact, certified node and ground of `w`, and gives none of them less. */
  ghost predicate Extends(v: Input, w: Input) {
    && v.sr == w.sr
    && w.supported <= v.supported
    && w.graph.baseFacts <= v.graph.baseFacts
    && (forall d :: d in w.graph.derivations && w.Grounded(d) ==>
          d in v.graph.derivations && w.StrengthOf(d) <= v.StrengthOf(d))
    && (forall n :: n in w.graph.baseFacts ==> w.BaseOf(n) <= v.BaseOf(n))
  }

  lemma ContributionGrows(v: Input, w: Input, conf: map<NodeId, real>, conf': map<NodeId, real>, d: Derivation)
    requires v.InRange() && w.InRange() && Extends(v, w) && v.Assigns(conf) && w.Assigns(conf')
    requires forall a :: a in w.supported ==> conf'[a] <= conf[a]
    requires d in w.graph.derivations && w.Grounded(d)
    ensures v.Grounded(d) && w.Contribution(conf', d) <= v.Contribution(conf, d)
  {
    BodyInUnit(v.sr, conf, d.body);
    BodyInUnit(v.sr, conf', d.body);
    BodyMonotone(v.sr, conf', conf, d.body);
    TimesMonotone(v.sr, w.StrengthOf(d), BodyProduct(v.sr, conf', d.body),
                  v.StrengthOf(d), BodyProduct(v.sr, conf, d.body));
  }

  lemma StartGrows(v: Input, w: Input, n: NodeId)
    requires v.InRange() && w.InRange() && Extends(v, w)
    ensures w.Start(n) <= v.Start(n)
  {
    StartInUnit(v, n);
  }

  lemma {:induction false} IteratesGrow(v: Input, w: Input, k: nat, n: NodeId)
    requires v.InRange() && w.InRange() && Extends(v, w) && n in w.supported
    ensures Iterate(w, k)[n] <= Iterate(v, k)[n]
    decreases k
  {
    hide Iterate, v.NodeValue, v.Contribution, v.Start;
    IterateZero(v);
    IterateZero(w);
    if k > 0 {
      IterateStep(v, k - 1);
      IterateStep(w, k - 1);
      forall a | a in w.supported
        ensures Iterate(w, k - 1)[a] <= Iterate(v, k - 1)[a]
      {
        IteratesGrow(v, w, k - 1, a);
      }
      NodeValueIsBest(w, Iterate(w, k - 1), n);
      NodeValueIsBest(v, Iterate(v, k - 1), n);
      StartGrows(v, w, n);
      if w.NodeValue(Iterate(w, k - 1), n) != w.Start(n) {
        var d :| w.Grounds(d, n) && w.Contribution(Iterate(w, k - 1), d) == w.NodeValue(Iterate(w, k - 1), n);
        ContributionGrows(v, w, Iterate(v, k - 1), Iterate(w, k - 1), d);
      }
    }
  }

  lemma LeastFixpointIsIterate(v: Input, conf: map<NodeId, real>)
    requires v.InRange() && LeastFixpoint(v, conf)
    ensures conf == Iterate(v, |v.supported|)
  {
    ConvergesInNodeManyRounds(v);
    StableIterateIsLeast(v, |v.supported|);
    LeastFixpointIsUnique(v, conf, Iterate(v, |v.supported|));
  }

  lemma {:induction false} LaterIteratesAgree(v: Input, k: nat)
    requires v.InRange() && |v.supported| <= k
    ensures Iterate(v, k) == Iterate(v, |v.supported|)
  {
    hide Iterate;
    if k > |v.supported| {
      LaterIteratesAgree(v, k - 1);
      ConvergesInNodeManyRounds(v);
      StepsAgree(v, k - 1, |v.supported|);
    }
  }

  lemma StepsAgree(v: Input, i: nat, j: nat)
    requires v.InRange() && Iterate(v, i) == Iterate(v, j)
    ensures Iterate(v, i + 1) == Iterate(v, j + 1)
  {
  }

  /** A larger graph scores no node lower. */
  lemma ConfidenceGrows(v: Input, w: Input, conf: map<NodeId, real>, conf': map<NodeId, real>)
    requires v.InRange() && w.InRange() && Extends(v, w)
    requires LeastFixpoint(v, conf) && LeastFixpoint(w, conf')
    ensures forall n :: n in w.supported ==> conf'[n] <= conf[n]
  {
    var k := |v.supported|;
    SubsetCardinality(w.supported, v.supported);
    LeastFixpointIsIterate(v, conf);
    LeastFixpointIsIterate(w, conf');
    LaterIteratesAgree(w, k);
    forall n | n in w.supported
      ensures conf'[n] <= conf[n]
    {
      IteratesGrow(v, w, k, n);
    }
  }

  // ---------------------------------------------------------------- the engine

  /** The program raises when the bound is exceeded. */
  datatype Outcome = Converged(confidence: map<NodeId, real>) | DidNotConverge

  function ListAt(m: map<NodeId, seq<Derivation>>, n: NodeId): seq<Derivation> {
    if n in m then m[n] else []
  }

  method IndexGrounds(v: Input) returns (grounds: map<NodeId, seq<Derivation>>)
    ensures forall n :: ListAt(grounds, n) == v.GroundsOf(n, |v.graph.derivations|)
  {
    grounds := map[];
    for k := 0 to |v.graph.derivations|
      invariant forall n :: ListAt(grounds, n) == v.GroundsOf(n, k)
    {
      var d := v.graph.derivations[k];
      if v.Grounded(d) {
        grounds := grounds[d.conclusion := ListAt(grounds, d.conclusion) + [d]];
      }
    }
  }

  /** One node of one round: the sum of its contributions. */
  method CombineAlternatives(v: Input, conf: map<NodeId, real>, n: NodeId, ds: seq<Derivation>) returns (acc: real)
    requires v.InRange() && v.Assigns(conf)
    requires ds == v.GroundsOf(n, |v.graph.derivations|)
    ensures acc == v.NodeValue(conf, n)
  {
    acc := v.sr.zero;
    StartInUnit(v, n);
    if n in v.graph.baseFacts {
      PlusIsMax(v.sr, acc, v.BaseOf(n));
      acc := v.sr.plus(acc, v.BaseOf(n));
    }
    assert acc == v.Start(n) && v.NodeValue(conf, n) == v.BestOver(conf, ds, v.Start(n)) && ds[..0] == [];
    hide v.NodeValue, v.Start, v.GroundsOf, v.BestOver, BodyProduct, Lawful;
    NoGround(v, conf, v.Start(n));
    for k := 0 to |ds|
      invariant acc == v.BestOver(conf, ds[..k], v.Start(n)) && Unit(acc)
    {
      var d := ds[k];
      assert d in ds;
      var body := CombineBody(v.sr, conf, d.body);
      ContributionInUnit(v, conf, d);
      PlusIsMax(v.sr, acc, v.Contribution(conf, d));
      OneMoreGround(v, conf, ds, k, v.Start(n));
      acc := v.sr.plus(acc, v.sr.times(v.StrengthOf(d), body));
    }
    assert ds[..|ds|] == ds;
  }

  lemma NoGround(v: Input, conf: map<NodeId, real>, start: real)
    requires v.Assigns(conf)
    ensures v.BestOver(conf, [], start) == start
  {
  }

  lemma OneMoreGround(v: Input, conf: map<NodeId, real>, ds: seq<Derivation>, k: nat, start: real)
    requires v.Assigns(conf) && k < |ds| && forall d :: d in ds ==> v.Grounded(d)
    ensures v.BestOver(conf, ds[..k + 1], start) == Max(v.BestOver(conf, ds[..k], start), v.Contribution(conf, ds[k]))
  {
    assert ds[..k + 1][..k] == ds[..k];
  }

  method ComputeRound(v: Input, grounds: map<NodeId, seq<Derivation>>, conf: map<NodeId, real>)
    returns (next: map<NodeId, real>)
    requires v.InRange() && v.Assigns(conf)
    requires forall n :: ListAt(grounds, n) == v.GroundsOf(n, |v.graph.derivations|)
    ensures next == v.Round(conf)
  {
    next := map[];
    var todo := v.supported;
    while todo != {}
      invariant todo <= v.supported
      invariant next.Keys == v.supported - todo
      invariant forall n :: n in next ==> next[n] == v.NodeValue(conf, n)
      decreases todo
    {
      var n :| n in todo;
      todo := todo - {n};
      var value := CombineAlternatives(v, conf, n, ListAt(grounds, n));
      next := next[n := value];
    }
  }

  /** The engine never raises; it stops within |nodes| + 1 rounds, at the least fixpoint. */
  method Valuate(v: Input) returns (r: Outcome, ghost rounds: nat)
    requires v.InRange()
    ensures r.Converged? && LeastFixpoint(v, r.confidence)
    ensures 1 <= rounds <= |v.supported| + 1 && r.confidence == Iterate(v, rounds - 1)
    ensures forall k :: 0 <= k < rounds - 1 ==> Iterate(v, k + 1) != Iterate(v, k)
  {
    hide v.NodeValue, Fixpoint;
    rounds := 0;
    var grounds := IndexGrounds(v);
    var conf := map n | n in v.supported :: v.sr.zero;
    for i := 0 to |v.supported| + 2
      invariant conf == Iterate(v, i)
      invariant forall k :: 0 <= k < i ==> Iterate(v, k + 1) != Iterate(v, k)
    {
      var next := ComputeRound(v, grounds, conf);
      if next == conf {
        StableIterateIsLeast(v, i);
        if i == |v.supported| + 1 {
          ConvergesInNodeManyRounds(v);
        }
        return Converged(conf), i + 1;
      }
      conf := next;
    }
    ConvergesInNodeManyRounds(v);
    assert false;
    r := DidNotConverge;
  }
}
