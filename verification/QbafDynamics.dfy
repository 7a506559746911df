/**
 The sweep of Qbaf.dfy as a dynamical system on [0, 1]^n.

 Cyclic frameworks: one sweep stretches the largest difference by at most `gain`, the
 semantics' Lipschitz constant times the heaviest incoming weight. That bounds the residual of
 every converged result, and below one it makes the fixpoint unique and the solver converge.
 */
module QbafDynamics {
  import opened Sets
  import opened Confidence
  import opened GradualSemantics
  import opened Qbaf

  ghost predicate InUnit(p: Problem, x: Strengths) {
    x.Keys == p.baf.arguments && forall a :: a in x ==> Unit(x[a])
  }

  ghost function TotalStrength(edges: seq<Edge>): real {
    if edges == [] then 0.0 else TotalStrength(edges[..|edges| - 1]) + edges[|edges| - 1].strength
  }

  /** The summed strength of the live edges into `a`. */
  ghost function InWeight(p: Problem, a: ArgId): real {
    TotalStrength(p.Supporters(a)) + TotalStrength(p.Attackers(a))
  }

  /** `gain` bounds the amplification of one sweep at every argument. */
  ghost predicate GainAtMost(p: Problem, kappa: real, gain: real) {
    gain >= 0.0 && forall a :: a in p.baf.arguments ==> kappa * InWeight(p, a) <= gain
  }

  lemma {:induction false} IncomingIsLive(arguments: set<ArgId>, edges: seq<Edge>, a: ArgId)
    ensures forall e :: e in Incoming(arguments, edges, a) <==> e in edges && Live(arguments, e) && e.dst == a
  {
    if edges != [] {
      var front, last := edges[..|edges| - 1], edges[|edges| - 1];
      assert edges == front + [last];
      IncomingIsLive(arguments, front, a);
    }
  }

  lemma IncomingInRange(arguments: set<ArgId>, edges: seq<Edge>, a: ArgId)
    requires InRange(edges)
    ensures InRange(Incoming(arguments, edges, a))
  {
    IncomingIsLive(arguments, edges, a);
    forall i | 0 <= i < |Incoming(arguments, edges, a)|
      ensures Unit(Incoming(arguments, edges, a)[i].strength)
    {
      assert Incoming(arguments, edges, a)[i] in edges;
    }
  }

  lemma ContributionsInUnit(p: Problem, edges: seq<Edge>, x: Strengths)
    requires InRange(edges) && InUnit(p, x)
    ensures Units(Contributions(edges, x))
  {
    forall i | 0 <= i < |edges|
      ensures Unit(Lent(edges[i], x))
    {
      ProductInUnit(edges[i].strength, At(x, edges[i].src));
    }
  }

  lemma UpdateInUnit(p: Problem, kappa: real, x: Strengths, a: ArgId)
    requires p.Checked() && LawfulSemantics(p.sem, kappa) && InUnit(p, x)
    ensures Unit(p.Update(x, a))
  {
    hide Incoming, Contributions, Units, Balanced, Lipschitz, OrderFree, Rises;
    IncomingInRange(p.baf.arguments, p.baf.supports, a);
    IncomingInRange(p.baf.arguments, p.baf.attacks, a);
    ContributionsInUnit(p, p.Supporters(a), x);
    ContributionsInUnit(p, p.Attackers(a), x);
    assert ClosedAt(p.sem, At(p.base, a), Contributions(p.Supporters(a), x), Contributions(p.Attackers(a), x));
  }

  lemma SweepInUnit(p: Problem, kappa: real, x: Strengths)
    requires p.Checked() && LawfulSemantics(p.sem, kappa) && InUnit(p, x)
    ensures InUnit(p, p.Sweep(x))
  {
    hide p.Update, LawfulSemantics;
    forall a | a in p.baf.arguments
      ensures Unit(p.Update(x, a))
    {
      UpdateInUnit(p, kappa, x, a);
    }
  }

  /** No strength ever leaves [0, 1]. */
  lemma {:induction false} IteratesInUnit(p: Problem, kappa: real, k: nat)
    requires p.Checked() && LawfulSemantics(p.sem, kappa)
    ensures InUnit(p, p.Iterate(k))
  {
    hide LawfulSemantics, p.Sweep;
    if k > 0 {
      IteratesInUnit(p, kappa, k - 1);
      SweepInUnit(p, kappa, p.Iterate(k - 1));
    }
  }

  // ---------------------------------------------------------------- one sweep stretches by at most the gain

  lemma ContributionsAppend(edges: seq<Edge>, e: Edge, x: Strengths)
    ensures Contributions(edges + [e], x) == Contributions(edges, x) + [Lent(e, x)]
  {
    hide Lent;
    var all := Contributions(edges, x) + [Lent(e, x)];
    forall i | 0 <= i < |edges + [e]|
      ensures Contributions(edges + [e], x)[i] == all[i]
    {
    }
  }

  /** A product kept closed, so that the proofs below stay linear. */
  ghost function Scaled(weight: real, delta: real): real {
    weight * delta
  }

  lemma {:induction false} ContributionGap(arguments: set<ArgId>, edges: seq<Edge>,
                                           x: Strengths, y: Strengths, delta: real)
    requires InRange(edges) && Near(arguments, x, y, delta) && forall e :: e in edges ==> e.src in arguments
    ensures |Contributions(edges, x)| == |Contributions(edges, y)|
    ensures Gap(Contributions(edges, x), Contributions(edges, y)) <= Scaled(TotalStrength(edges), delta)
  {
    hide Lent, Scaled;
    if edges != [] {
      var front, e := edges[..|edges| - 1], edges[|edges| - 1];
      assert edges == front + [e];
      assert Abs(At(x, e.src) - At(y, e.src)) <= delta && Unit(e.strength);
      ContributionGap(arguments, front, x, y, delta);
      hide Abs, Gap, TotalStrength, Contributions, At;
      ContributionsAppend(front, e, x);
      ContributionsAppend(front, e, y);
      LentGap(e, x, y, delta);
      Splits(TotalStrength(front), e.strength, delta);
    } else {
      assert Scaled(0.0, delta) == 0.0 by { ScaledZero(delta); }
    }
  }

  lemma ScaledZero(delta: real)
    ensures Scaled(0.0, delta) == 0.0
  {
  }

  lemma Splits(u: real, v: real, delta: real)
    ensures Scaled(u + v, delta) == Scaled(u, delta) + Scaled(v, delta)
  {
  }

  lemma LentGap(e: Edge, x: Strengths, y: Strengths, delta: real)
    requires 0.0 <= e.strength && Abs(At(x, e.src) - At(y, e.src)) <= delta
    ensures Abs(Lent(e, x) - Lent(e, y)) <= Scaled(e.strength, delta)
  {
    hide At;
    ScaledGap(e.strength, At(x, e.src), At(y, e.src), delta);
  }

  lemma ScaledGap(s: real, x: real, y: real, delta: real)
    requires 0.0 <= s && Abs(x - y) <= delta
    ensures Abs(s * x - s * y) <= Scaled(s, delta)
  {
    var up, down := delta - (x - y), delta - (y - x);
    NonNegative(s, up);
    NonNegative(s, down);
    assert s * up == s * delta - (s * x - s * y);
    assert s * down == s * delta - (s * y - s * x);
  }

  lemma UpdateLipschitz(p: Problem, kappa: real, x: Strengths, y: Strengths, delta: real, a: ArgId)
    requires p.Checked() && LawfulSemantics(p.sem, kappa) && InUnit(p, x) && InUnit(p, y)
    requires Near(p.baf.arguments, x, y, delta)
    ensures Abs(p.Update(x, a) - p.Update(y, a)) <= Scaled(kappa, Scaled(InWeight(p, a), delta))
  {
    hide Incoming, Contributions, Units, Balanced, Closed, OrderFree, Rises, Gap, TotalStrength, Near, Abs, Scaled;
    var ss, ds := p.Supporters(a), p.Attackers(a);
    IncomingInRange(p.baf.arguments, p.baf.supports, a);
    IncomingInRange(p.baf.arguments, p.baf.attacks, a);
    IncomingIsLive(p.baf.arguments, p.baf.supports, a);
    IncomingIsLive(p.baf.arguments, p.baf.attacks, a);
    ContributionsInUnit(p, ss, x);
    ContributionsInUnit(p, ss, y);
    ContributionsInUnit(p, ds, x);
    ContributionsInUnit(p, ds, y);
    ContributionGap(p.baf.arguments, ss, x, y, delta);
    ContributionGap(p.baf.arguments, ds, x, y, delta);
    var gap := Gap(Contributions(ss, x), Contributions(ss, y)) + Gap(Contributions(ds, x), Contributions(ds, y));
    assert LipschitzAt(p.sem, kappa, At(p.base, a), Contributions(ss, x), Contributions(ss, y),
                       Contributions(ds, x), Contributions(ds, y));
    assert Abs(p.Update(x, a) - p.Update(y, a)) <= kappa * gap;
    Splits(TotalStrength(ss), TotalStrength(ds), delta);
    TimesKeepsOrder(kappa, gap, Scaled(InWeight(p, a), delta));
  }

  lemma TimesKeepsOrder(k: real, x: real, y: real)
    requires 0.0 <= k && x <= y
    ensures k * x <= Scaled(k, y)
  {
    NonNegative(k, y - x);
  }

  lemma UpdateStretches(p: Problem, kappa: real, gain: real, x: Strengths, y: Strengths, delta: real, a: ArgId)
    requires p.Checked() && LawfulSemantics(p.sem, kappa) && InUnit(p, x) && InUnit(p, y) && a in p.baf.arguments
    requires GainAtMost(p, kappa, gain) && delta >= 0.0 && Near(p.baf.arguments, x, y, delta)
    ensures Abs(p.Update(x, a) - p.Update(y, a)) <= Scaled(gain, delta)
  {
    hide Scaled, LawfulSemantics, InWeight, p.Update, Abs, Near;
    UpdateLipschitz(p, kappa, x, y, delta, a);
    Stretched(kappa, InWeight(p, a), delta, gain);
  }

  /** The sweep is Lipschitz in the largest difference. */
  lemma SweepLipschitz(p: Problem, kappa: real, gain: real, x: Strengths, y: Strengths, delta: real)
    requires p.Checked() && LawfulSemantics(p.sem, kappa) && InUnit(p, x) && InUnit(p, y)
    requires GainAtMost(p, kappa, gain) && delta >= 0.0 && Near(p.baf.arguments, x, y, delta)
    ensures Near(p.baf.arguments, p.Sweep(x), p.Sweep(y), Scaled(gain, delta))
  {
    hide p.Update, LawfulSemantics, GainAtMost, Abs, InUnit, p.Checked, Scaled;
    forall a | a in p.baf.arguments
      ensures Abs(p.Update(x, a) - p.Update(y, a)) <= Scaled(gain, delta)
    {
      UpdateStretches(p, kappa, gain, x, y, delta, a);
    }
  }

  lemma Stretched(kappa: real, weight: real, delta: real, gain: real)
    requires delta >= 0.0 && kappa * weight <= gain
    ensures Scaled(kappa, Scaled(weight, delta)) <= Scaled(gain, delta)
  {
    NonNegative(delta, gain - kappa * weight);
    assert kappa * (weight * delta) == (kappa * weight) * delta;
  }

  // ---------------------------------------------------------------- converged results

  /** A converged result nearly solves the equations: one more sweep moves no argument by more
      than the gain times the tolerance. */
  lemma ConvergedResidual(p: Problem, kappa: real, gain: real, maxIterations: int, tolerance: real, r: Outcome)
    requires Solves(p, maxIterations, tolerance, r) && r.Solved? && r.converged
    requires LawfulSemantics(p.sem, kappa) && GainAtMost(p, kappa, gain)
    ensures Near(p.baf.arguments, p.Sweep(r.acceptability), r.acceptability, Scaled(gain, tolerance))
  {
    hide LawfulSemantics, p.Sweep, GainAtMost, Near;
    var i := r.iterations;
    IteratesInUnit(p, kappa, i);
    IteratesInUnit(p, kappa, i - 1);
    IterateUnfolds(p, i - 1);
    SweepLipschitz(p, kappa, gain, p.Iterate(i), p.Iterate(i - 1), tolerance);
  }

  lemma PowStep(b: real, k: nat)
    ensures Pow(b, 0) == 1.0 && Pow(b, k + 1) == Scaled(b, Pow(b, k))
  {
  }

  lemma {:induction false} PowNonNegative(b: real, k: nat)
    requires b >= 0.0
    ensures Pow(b, k) >= 0.0
  {
    if k > 0 {
      PowNonNegative(b, k - 1);
      NonNegative(b, Pow(b, k - 1));
    }
  }

  /** Step sizes shrink geometrically. */
  lemma {:induction false} StepsShrink(p: Problem, kappa: real, gain: real, k: nat)
    requires p.Checked() && LawfulSemantics(p.sem, kappa) && GainAtMost(p, kappa, gain)
    ensures Near(p.baf.arguments, p.Iterate(k + 1), p.Iterate(k), Pow(gain, k))
  {
    hide *;
    IteratesInUnit(p, kappa, k);
    IteratesInUnit(p, kappa, k + 1);
    PowStep(gain, k);
    if k == 0 {
      UnitsAreNear(p, p.Iterate(1), p.Iterate(0));
    } else {
      StepsShrink(p, kappa, gain, k - 1);
      StepShrinks(p, kappa, gain, k - 1, Pow(gain, k - 1));
      PowStep(gain, k - 1);
    }
  }

  lemma StepShrinks(p: Problem, kappa: real, gain: real, k: nat, delta: real)
    requires p.Checked() && LawfulSemantics(p.sem, kappa) && GainAtMost(p, kappa, gain) && delta == Pow(gain, k)
    requires Near(p.baf.arguments, p.Iterate(k + 1), p.Iterate(k), delta)
    ensures Near(p.baf.arguments, p.Iterate(k + 2), p.Iterate(k + 1), Scaled(gain, delta))
  {
    hide *;
    IteratesInUnit(p, kappa, k);
    IteratesInUnit(p, kappa, k + 1);
    GainIsNonNegative(p, kappa, gain);
    PowNonNegative(gain, k);
    IterateUnfolds(p, k + 1);
    IterateUnfolds(p, k);
    SweepLipschitz(p, kappa, gain, p.Iterate(k + 1), p.Iterate(k), delta);
  }

  lemma UnitsAreNear(p: Problem, x: Strengths, y: Strengths)
    requires InUnit(p, x) && InUnit(p, y)
    ensures Near(p.baf.arguments, x, y, 1.0)
  {
  }

  lemma GainIsNonNegative(p: Problem, kappa: real, gain: real)
    requires GainAtMost(p, kappa, gain)
    ensures gain >= 0.0
  {
  }

  /** On every framework, cyclic or not, `solve` converges once the bound outlasts the gain. */
  lemma ConvergesWhenGainIsOutlasted(p: Problem, kappa: real, gain: real, maxIterations: nat, tolerance: real, r: Outcome)
    requires p.Checked() && LawfulSemantics(p.sem, kappa) && GainAtMost(p, kappa, gain)
    requires maxIterations >= 1 && Pow(gain, maxIterations - 1) <= tolerance
    requires Solves(p, maxIterations, tolerance, r)
    ensures r.Solved? && r.converged
  {
    hide LawfulSemantics, p.Sweep, p.Iterate, GainAtMost;
    GainIsNonNegative(p, kappa, gain);
    PowNonNegative(gain, maxIterations - 1);
    StepsShrink(p, kappa, gain, maxIterations - 1);
    assert SettlesAt(p, tolerance, maxIterations);
  }

  ghost predicate IsFixpoint(p: Problem, x: Strengths) {
    InUnit(p, x) && p.Sweep(x) == x
  }

  lemma {:induction false} Farthest(arguments: set<ArgId>, x: Strengths, y: Strengths) returns (a: ArgId)
    requires arguments != {}
    ensures a in arguments && Near(arguments, x, y, Abs(At(x, a) - At(y, a)))
  {
    var b :| b in arguments;
    var rest := arguments - {b};
    if rest == {} {
      assert arguments == {b};
      a := b;
    } else {
      var c := Farthest(rest, x, y);
      a := if Abs(At(x, b) - At(y, b)) > Abs(At(x, c) - At(y, c)) then b else c;
    }
  }

  lemma OnlyZeroShrinks(gain: real, delta: real)
    requires 0.0 <= delta <= Scaled(gain, delta) && gain < 1.0
    ensures delta == 0.0
  {
    assert delta > 0.0 ==> Scaled(gain, delta) < delta;
  }

  lemma NothingLeft(arguments: set<ArgId>, x: Strengths, y: Strengths, gain: real, delta: real, a: ArgId)
    requires a in arguments && delta == Abs(At(x, a) - At(y, a)) && gain < 1.0
    requires Near(arguments, x, y, delta) && Near(arguments, x, y, Scaled(gain, delta))
    ensures Near(arguments, x, y, 0.0)
  {
    hide At, Abs;
    AbsIsNonNegative(At(x, a) - At(y, a));
    assert Abs(At(x, a) - At(y, a)) <= Scaled(gain, delta);
    OnlyZeroShrinks(gain, delta);
  }

  lemma FixpointMeans(p: Problem, x: Strengths)
    requires IsFixpoint(p, x)
    ensures InUnit(p, x) && x.Keys == p.baf.arguments && p.Sweep(x) == x
  {
  }

  lemma NearlyEqual(p: Problem, x: Strengths, y: Strengths)
    requires x.Keys == y.Keys == p.baf.arguments && Near(p.baf.arguments, x, y, 0.0)
    ensures x == y
  {
    forall b | b in p.baf.arguments
      ensures x[b] == y[b]
    {
    }
  }

  /** Below gain one there is at most one fixpoint. */
  lemma ContractionHasOneFixpoint(p: Problem, kappa: real, gain: real, x: Strengths, y: Strengths)
    requires p.Checked() && LawfulSemantics(p.sem, kappa) && GainAtMost(p, kappa, gain) && gain < 1.0
    requires IsFixpoint(p, x) && IsFixpoint(p, y)
    ensures x == y
  {
    hide *;
    FixpointMeans(p, x);
    FixpointMeans(p, y);
    if p.baf.arguments == {} {
      assert x.Keys == y.Keys == {};
    } else {
      var a := Farthest(p.baf.arguments, x, y);
      var delta := Abs(At(x, a) - At(y, a));
      AbsIsNonNegative(At(x, a) - At(y, a));
      SweepLipschitz(p, kappa, gain, x, y, delta);
      NothingLeft(p.baf.arguments, x, y, gain, delta, a);
      NearlyEqual(p, x, y);
    }
  }

  lemma AbsIsNonNegative(x: real)
    ensures Abs(x) >= 0.0
  {
  }

  /** ... and every sweep closes in on it. */
  lemma {:induction false} IteratesApproach(p: Problem, kappa: real, gain: real, x: Strengths, k: nat)
    requires p.Checked() && LawfulSemantics(p.sem, kappa) && GainAtMost(p, kappa, gain) && IsFixpoint(p, x)
    ensures Near(p.baf.arguments, p.Iterate(k), x, Pow(gain, k))
  {
    hide *;
    FixpointMeans(p, x);
    IteratesInUnit(p, kappa, k);
    PowStep(gain, k);
    if k == 0 {
      UnitsAreNear(p, p.Iterate(0), x);
    } else {
      IteratesApproach(p, kappa, gain, x, k - 1);
      IteratesInUnit(p, kappa, k - 1);
      GainIsNonNegative(p, kappa, gain);
      PowNonNegative(gain, k - 1);
      PowStep(gain, k - 1);
      IterateUnfolds(p, k - 1);
      SweepLipschitz(p, kappa, gain, p.Iterate(k - 1), x, Pow(gain, k - 1));
    }
  }

  // ---------------------------------------------------------------- the order of the edges

  lemma {:induction false} IncomingSplits(arguments: set<ArgId>, u: seq<Edge>, v: seq<Edge>, a: ArgId)
    ensures Incoming(arguments, u + v, a) == Incoming(arguments, u, a) + Incoming(arguments, v, a)
    decreases |v|
  {
    if v == [] {
      assert u + v == u;
    } else {
      var front, last := v[..|v| - 1], v[|v| - 1];
      assert (u + v)[..|u + v| - 1] == u + front;
      IncomingSplits(arguments, u, front, a);
    }
  }

  /** What argument `a` receives along `edges`. */
  ghost function Received(arguments: set<ArgId>, edges: seq<Edge>, a: ArgId, x: Strengths): seq<real> {
    Contributions(Incoming(arguments, edges, a), x)
  }

  lemma ReceivedSplits(arguments: set<ArgId>, u: seq<Edge>, v: seq<Edge>, a: ArgId, x: Strengths)
    ensures Received(arguments, u + v, a, x) == Received(arguments, u, a, x) + Received(arguments, v, a, x)
  {
    IncomingSplits(arguments, u, v, a);
  }

  lemma {:induction false} ReceivedAnyOrder(arguments: set<ArgId>, edges: seq<Edge>, edges': seq<Edge>, a: ArgId,
                                            x: Strengths)
    requires multiset(edges) == multiset(edges')
    ensures multiset(Received(arguments, edges, a, x)) == multiset(Received(arguments, edges', a, x))
    decreases |edges'|
  {
    hide Received;
    if edges' == [] {
      assert |multiset(edges)| == |edges|;
    } else {
      var front, last := edges'[..|edges'| - 1], edges'[|edges'| - 1];
      assert edges' == front + [last];
      var u, v := FindLast(edges, front, last);
      ReceivedAnyOrder(arguments, u + v, front, a, x);
      ReceivedSplits(arguments, u, v, a, x);
      ReceivedSplits(arguments, u + [last], v, a, x);
      ReceivedSplits(arguments, u, [last], a, x);
      ReceivedSplits(arguments, front, [last], a, x);
    }
  }

  lemma UpdateIs(p: Problem, x: Strengths, a: ArgId)
    ensures p.Update(x, a)
         == p.sem.combine(At(p.base, a), p.sem.aggregate(Received(p.baf.arguments, p.baf.supports, a, x)),
                                            p.sem.aggregate(Received(p.baf.arguments, p.baf.attacks, a, x)))
  {
  }

  /** The outcome does not depend on the order the edges are listed in. */
  lemma {:induction false} IteratesIgnoreEdgeOrder(p: Problem, q: Problem, kappa: real, k: nat)
    requires LawfulSemantics(p.sem, kappa) && q.sem == p.sem && q.base == p.base
    requires q.baf.arguments == p.baf.arguments
    requires multiset(q.baf.supports) == multiset(p.baf.supports)
    requires multiset(q.baf.attacks) == multiset(p.baf.attacks)
    ensures q.Iterate(k) == p.Iterate(k)
  {
    hide p.Update, Received, Closed, Balanced, Lipschitz, Rises;
    if k > 0 {
      IteratesIgnoreEdgeOrder(p, q, kappa, k - 1);
      var x := p.Iterate(k - 1);
      forall a
        ensures p.Update(x, a) == q.Update(x, a)
      {
        UpdateIs(p, x, a);
        UpdateIs(q, x, a);
        ReceivedAnyOrder(p.baf.arguments, p.baf.supports, q.baf.supports, a, x);
        ReceivedAnyOrder(p.baf.arguments, p.baf.attacks, q.baf.attacks, a, x);
        assert SameAggregate(p.sem, Received(p.baf.arguments, p.baf.supports, a, x),
                             Received(p.baf.arguments, q.baf.supports, a, x));
        assert SameAggregate(p.sem, Received(p.baf.arguments, p.baf.attacks, a, x),
                             Received(p.baf.arguments, q.baf.attacks, a, x));
      }
    }
  }
}
