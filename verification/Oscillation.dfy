/**
 The cyclic motifs of scripts/b2_cyclic_oscillation.py, solved exactly.

 Two arguments at base `b` refuting one another over edges of strength `w` under DF-QuAD: sweep
 `i` moves each by b * (b * w)^i, so the loop settles at the first sweep for which that falls
 within the tolerance, and at b = w = 1 it alternates forever. The same loop under Quadratic
 Energy is a contraction.
 */
module Oscillation {
  import opened Confidence
  import opened GradualSemantics
  import opened Qbaf
  import opened QbafDynamics

  /** A two-cycle of one sign, both arguments at `base`. */
  function TwoCycle(a: ArgId, b: ArgId, attack: bool, base: real, strength: real, sem: Semantics): Problem {
    var edges := [Edge(a, b, strength), Edge(b, a, strength)];
    Problem(Baf({a, b}, if attack then [] else edges, if attack then edges else []), map[a := base, b := base], sem)
  }

  lemma IncomingPair(arguments: set<ArgId>, e: Edge, f: Edge, u: ArgId)
    requires Live(arguments, e) && Live(arguments, f)
    ensures Incoming(arguments, [e, f], u) == (if e.dst == u then [e] else []) + (if f.dst == u then [f] else [])
  {
    assert [e, f][..1] == [e];
    assert [e][..0] == [];
    assert Incoming(arguments, [e], u) == if e.dst == u then [e] else [];
  }

  lemma OneContribution(e: Edge, x: Strengths)
    ensures Contributions([e], x) == [Lent(e, x)] && Contributions([], x) == []
  {
  }

  lemma OneReason(c: real)
    ensures ProbSumOf([c]) == c && ProbSumOf([]) == 0.0
    ensures PlainSumOf([c]) == c && PlainSumOf([]) == 0.0
  {
    assert [c][..0] == [];
  }

  /** Both arguments at `v`. */
  function Both(a: ArgId, b: ArgId, v: real): Strengths {
    map[a := v, b := v]
  }

  /** What one sweep of mutual refutation over edges of strength `weight` makes of the common strength. */
  ghost function Refute(base: real, weight: real, v: real): real {
    base * (1.0 - weight * v)
  }

  /** Mutual refutation sends both from `v` to base * (1 - weight * v). */
  lemma RefutationSweep(a: ArgId, b: ArgId, base: real, weight: real, v: real)
    requires a != b && Unit(weight) && Unit(v)
    ensures TwoCycle(a, b, true, base, weight, DF_QUAD).Sweep(Both(a, b, v)) == Both(a, b, Refute(base, weight, v))
  {
    var p, x := TwoCycle(a, b, true, base, weight, DF_QUAD), Both(a, b, v);
    var e, f := Edge(a, b, weight), Edge(b, a, weight);
    IncomingPair({a, b}, e, f, a);
    IncomingPair({a, b}, e, f, b);
    assert p.Attackers(a) == [f] && p.Attackers(b) == [e];
    assert p.Supporters(a) == [] && p.Supporters(b) == [];
    hide Incoming, Contributions, ProbSumOf;
    OneContribution(e, x);
    OneContribution(f, x);
    LentByOne(e, x, v);
    LentByOne(f, x, v);
    hide Lent, DfQuadCombine, Refute;
    OneReason(Scaled(weight, v));
    assert p.Update(x, a) == DfQuadCombine(base, 0.0, Scaled(weight, v));
    assert p.Update(x, b) == DfQuadCombine(base, 0.0, Scaled(weight, v));
    RefuteIs(base, weight, v);
  }

  /** An edge from a source at `v` lends its strength times `v`. */
  lemma LentByOne(e: Edge, x: Strengths, v: real)
    requires e.src in x && x[e.src] == v
    ensures Lent(e, x) == Scaled(e.strength, v)
  {
  }

  lemma RefuteIs(base: real, weight: real, v: real)
    requires Unit(weight) && Unit(v)
    ensures DfQuadCombine(base, 0.0, Scaled(weight, v)) == Refute(base, weight, v)
  {
    NonNegative(weight, v);
    assert base - base * Scaled(weight, v) == base * (1.0 - Scaled(weight, v));
  }

  /** The common strength of the two after `k` sweeps. */
  ghost function Refuted(base: real, weight: real, k: nat): real {
    if k == 0 then base else Refute(base, weight, Refuted(base, weight, k - 1))
  }

  lemma {:induction false} RefutedInUnit(base: real, weight: real, k: nat)
    requires Unit(base) && Unit(weight)
    ensures Unit(Refuted(base, weight, k))
  {
    if k > 0 {
      RefutedInUnit(base, weight, k - 1);
      RefuteInUnit(base, weight, Refuted(base, weight, k - 1));
    }
  }

  lemma RefuteInUnit(base: real, weight: real, v: real)
    requires Unit(base) && Unit(weight) && Unit(v)
    ensures Unit(Refute(base, weight, v))
  {
    ProductInUnit(weight, v);
    ProductInUnit(base, 1.0 - weight * v);
  }

  lemma {:induction false} RefutationIterates(a: ArgId, b: ArgId, base: real, weight: real, k: nat)
    requires a != b && Unit(base) && Unit(weight)
    ensures TwoCycle(a, b, true, base, weight, DF_QUAD).Iterate(k) == Both(a, b, Refuted(base, weight, k))
  {
    var p := TwoCycle(a, b, true, base, weight, DF_QUAD);
    hide p.Update, p.Sweep, Refute;
    if k > 0 {
      RefutationIterates(a, b, base, weight, k - 1);
      RefutedInUnit(base, weight, k - 1);
      RefutationSweep(a, b, base, weight, Refuted(base, weight, k - 1));
      IterateUnfolds(p, k - 1);
    } else {
      IterateUnfolds(p, 0);
    }
  }

  /** The size of the `i`-th step. */
  ghost function StepSize(base: real, weight: real, i: nat): real {
    Scaled(base, Pow(base * weight, i))
  }

  /** Each sweep overshoots, and the `i`-th step has size base * (base * weight)^i. */
  lemma {:induction false} RefutationStep(base: real, weight: real, i: nat)
    requires base >= 0.0 && weight >= 0.0
    ensures Abs(Refuted(base, weight, i + 1) - Refuted(base, weight, i)) == StepSize(base, weight, i + 1)
  {
    hide Refute, Abs, Pow, Scaled;
    PowStep(base * weight, i);
    if i == 0 {
      FirstStep(base, weight);
      assert Pow(base * weight, 0) == 1.0 by { PowStep(base * weight, 0); }
    } else {
      RefutationStep(base, weight, i - 1);
      NextStep(base, weight, Refuted(base, weight, i - 1), Refuted(base, weight, i));
      Swap(base, base * weight, Pow(base * weight, i));
    }
  }

  lemma FirstStep(base: real, weight: real)
    requires base >= 0.0 && weight >= 0.0
    ensures Abs(Refute(base, weight, base) - base) == Scaled(base, Scaled(base * weight, 1.0))
  {
    NonNegative(base, weight);
    NonNegative(base, base * weight);
    assert base * (1.0 - weight * base) - base == -(base * (base * weight));
  }

  lemma NextStep(base: real, weight: real, v: real, w: real)
    requires base >= 0.0 && weight >= 0.0
    ensures Abs(Refute(base, weight, w) - Refute(base, weight, v)) == Scaled(base * weight, Abs(w - v))
  {
    var q := base * weight;
    assert base * (1.0 - weight * w) - base * (1.0 - weight * v) == -(q * (w - v));
    NonNegative(base, weight);
    if w >= v {
      NonNegative(q, w - v);
    } else {
      NonNegative(q, v - w);
      assert q * (v - w) == -(q * (w - v));
    }
  }

  lemma Swap(x: real, y: real, z: real)
    ensures Scaled(x, Scaled(y, z)) == Scaled(y, Scaled(x, z))
  {
  }

  /** The stopping test of the loop is a test on a power of base * weight. */
  lemma RefutationSettlesAt(a: ArgId, b: ArgId, base: real, weight: real, tolerance: real, i: nat)
    requires a != b && Unit(base) && Unit(weight) && i > 0
    ensures SettlesAt(TwoCycle(a, b, true, base, weight, DF_QUAD), tolerance, i)
       <==> StepSize(base, weight, i) <= tolerance
  {
    var p := TwoCycle(a, b, true, base, weight, DF_QUAD);
    hide p.Iterate, Refuted, StepSize;
    RefutationIterates(a, b, base, weight, i);
    RefutationIterates(a, b, base, weight, i - 1);
    RefutationStep(base, weight, i - 1);
    StepSizeFalls(base, weight, i, i);
    assert At(p.Iterate(i), a) == Refuted(base, weight, i) && At(p.Iterate(i - 1), a) == Refuted(base, weight, i - 1);
  }

  lemma {:induction false} PowFalls(base: real, i: nat, j: nat)
    requires Unit(base) && i <= j
    ensures 0.0 <= Pow(base, j) <= Pow(base, i)
    decreases j
  {
    hide Pow;
    PowNonNegative(base, j);
    if i < j {
      PowFalls(base, i, j - 1);
      PowFallsOnce(base, j - 1);
    }
  }

  lemma PowFallsOnce(base: real, i: nat)
    requires Unit(base) && Pow(base, i) >= 0.0
    ensures Pow(base, i + 1) <= Pow(base, i)
  {
    ProductBelow(base, Pow(base, i));
  }

  lemma ProductBelow(base: real, x: real)
    requires Unit(base) && x >= 0.0
    ensures base * x <= x
  {
    NonNegative(1.0 - base, x);
  }

  lemma RefutationIsChecked(a: ArgId, b: ArgId, base: real, weight: real, sem: Semantics)
    requires Unit(base) && Unit(weight)
    ensures TwoCycle(a, b, true, base, weight, sem).Checked()
  {
  }

  /** Damped circular refutation: the loop converges within the bound exactly when the bound's step
      falls within the tolerance, and stops at the first sweep whose step does. */
  lemma RefutationOutcome(a: ArgId, b: ArgId, base: real, weight: real, maxIterations: nat, tolerance: real, r: Outcome)
    requires a != b && Unit(base) && Unit(weight) && maxIterations >= 1
    requires Solves(TwoCycle(a, b, true, base, weight, DF_QUAD), maxIterations, tolerance, r)
    ensures r.Solved? && (r.converged <==> StepSize(base, weight, maxIterations) <= tolerance)
    ensures r.converged ==> StepSize(base, weight, r.iterations) <= tolerance
    ensures forall j :: 1 <= j < r.iterations ==> StepSize(base, weight, j) > tolerance
    ensures r.acceptability == Both(a, b, Refuted(base, weight, r.iterations))
    ensures !r.converged ==> r.iterations == maxIterations
    ensures !r.converged ==> r.unstable == if StepSize(base, weight, maxIterations + 1) > tolerance then {a, b} else {}
  {
    hide *;
    var p := TwoCycle(a, b, true, base, weight, DF_QUAD);
    RefutationIsChecked(a, b, base, weight, DF_QUAD);
    SolvesMeans(p, maxIterations, tolerance, r);
    RefutationIterates(a, b, base, weight, r.iterations);
    forall j | 1 <= j <= r.iterations
      ensures SettlesAt(p, tolerance, j) <==> StepSize(base, weight, j) <= tolerance
    {
      RefutationSettlesAt(a, b, base, weight, tolerance, j);
    }
    StepSizeFalls(base, weight, r.iterations, maxIterations);
    RefutationRegion(a, b, base, weight, tolerance, maxIterations);
  }

  lemma StepSizeFalls(base: real, weight: real, i: nat, j: nat)
    requires Unit(base) && Unit(weight) && i <= j
    ensures 0.0 <= StepSize(base, weight, j) <= StepSize(base, weight, i)
  {
    ProductInUnit(base, weight);
    PowFalls(base * weight, i, j);
    Grows(base, Pow(base * weight, j), Pow(base * weight, i));
    NonNegative(base, Pow(base * weight, j));
    hide Pow;
  }

  lemma Grows(base: real, x: real, y: real)
    requires base >= 0.0 && x <= y
    ensures Scaled(base, x) <= Scaled(base, y)
  {
    NonNegative(base, y - x);
    assert base * (y - x) == base * y - base * x;
  }

  lemma SolvesMeans(p: Problem, maxIterations: int, tolerance: real, r: Outcome)
    requires p.Checked() && maxIterations >= 1 && Solves(p, maxIterations, tolerance, r)
    ensures r.Solved? && 1 <= r.iterations <= maxIterations && r.acceptability == p.Iterate(r.iterations)
    ensures forall j :: 1 <= j < r.iterations ==> !SettlesAt(p, tolerance, j)
    ensures r.converged <==> SettlesAt(p, tolerance, r.iterations)
    ensures !r.converged ==> r.iterations == maxIterations && r.unstable == MovingAt(p, tolerance, maxIterations + 1)
  {
    hide p.Iterate, p.Checked, SettlesAt, MovingAt;
  }

  lemma RefutationRegion(a: ArgId, b: ArgId, base: real, weight: real, tolerance: real, i: nat)
    requires a != b && Unit(base) && Unit(weight)
    ensures MovingAt(TwoCycle(a, b, true, base, weight, DF_QUAD), tolerance, i + 1)
         == if StepSize(base, weight, i + 1) > tolerance then {a, b} else {}
  {
    var p := TwoCycle(a, b, true, base, weight, DF_QUAD);
    hide p.Iterate, Refuted, StepSize;
    RefutationIterates(a, b, base, weight, i);
    RefutationIterates(a, b, base, weight, i + 1);
    RefutationStep(base, weight, i);
  }

  /** A converged loop lies within the tolerance, over 1 + base * weight, of base / (1 + base * weight). */
  lemma RefutationComesNear(a: ArgId, b: ArgId, base: real, weight: real, maxIterations: nat, tolerance: real, r: Outcome)
    requires a != b && Unit(base) && Unit(weight) && maxIterations >= 1
    requires Solves(TwoCycle(a, b, true, base, weight, DF_QUAD), maxIterations, tolerance, r) && r.Solved? && r.converged
    ensures Abs(Scaled(1.0 + base * weight, At(r.acceptability, a)) - base) <= tolerance
  {
    hide *;
    RefutationOutcome(a, b, base, weight, maxIterations, tolerance, r);
    var v := Refuted(base, weight, r.iterations);
    AtBoth(a, b, v);
    UnitIs(base);
    UnitIs(weight);
    RefutationStep(base, weight, r.iterations);
    RefutedUnfolds(base, weight, r.iterations);
    Overshoot(base, weight, v);
    StepSizeFalls(base, weight, r.iterations, r.iterations + 1);
  }

  lemma RefutedUnfolds(base: real, weight: real, k: nat)
    ensures Refuted(base, weight, k + 1) == Refute(base, weight, Refuted(base, weight, k))
  {
  }

  /** The step from `v` is its distance from the balance, scaled. */
  lemma Overshoot(base: real, weight: real, v: real)
    ensures Abs(Refute(base, weight, v) - v) == Abs(Scaled(1.0 + base * weight, v) - base)
  {
    assert (1.0 + base * weight) * v - base == v - base * (1.0 - weight * v);
  }

  lemma AtBoth(a: ArgId, b: ArgId, v: real)
    ensures At(Both(a, b, v), a) == v
  {
  }

  lemma {:induction false} PowOfOne(k: nat)
    ensures Pow(1.0, k) == 1.0
  {
    if k > 0 {
      PowOfOne(k - 1);
    }
  }

  lemma {:induction false} Alternates(k: nat)
    ensures Refuted(1.0, 1.0, k) == if k % 2 == 0 then 1.0 else 0.0
  {
    if k > 0 {
      Alternates(k - 1);
    }
  }

  /** Critical circular refutation never converges: it alternates between both and neither, and
      the whole loop is named as the unresolved region. */
  lemma CriticalRefutationNeverSettles(a: ArgId, b: ArgId, maxIterations: nat, tolerance: real, r: Outcome)
    requires a != b && tolerance < 1.0 && maxIterations >= 1
    requires Solves(TwoCycle(a, b, true, 1.0, 1.0, DF_QUAD), maxIterations, tolerance, r)
    ensures r.Solved? && !r.converged && r.unstable == {a, b}
    ensures r.acceptability == Both(a, b, if maxIterations % 2 == 0 then 1.0 else 0.0)
  {
    hide Solves, TwoCycle, Refuted, Pow;
    RefutationOutcome(a, b, 1.0, 1.0, maxIterations, tolerance, r);
    PowOfOne(maxIterations);
    PowOfOne(maxIterations + 1);
    Alternates(maxIterations);
  }

  /** Under Quadratic Energy the same full-strength loop has gain 3/4. */
  lemma RefutationGain(a: ArgId, b: ArgId, base: real)
    requires a != b
    ensures GainAtMost(TwoCycle(a, b, true, base, 1.0, QUADRATIC_ENERGY), 0.75, 0.75)
    ensures GainAtMost(TwoCycle(a, b, true, base, 1.0, DF_QUAD), 1.0, 1.0)
  {
    var e, f := Edge(a, b, 1.0), Edge(b, a, 1.0);
    IncomingPair({a, b}, e, f, a);
    IncomingPair({a, b}, e, f, b);
    hide Incoming;
    assert Incoming({a, b}, [], a) == [] && Incoming({a, b}, [], b) == [] by {
      IncomingNone({a, b}, a);
      IncomingNone({a, b}, b);
    }
    OneTotal(e);
    OneTotal(f);
  }

  lemma IncomingNone(arguments: set<ArgId>, u: ArgId)
    ensures Incoming(arguments, [], u) == []
  {
  }

  lemma OneTotal(e: Edge)
    ensures TotalStrength([e]) == e.strength && TotalStrength([]) == 0.0
  {
    assert [e][..0] == [];
  }

  lemma QuadraticEnergyRefutationConverges(a: ArgId, b: ArgId, base: real, maxIterations: nat,
                                             tolerance: real, r: Outcome)
    requires a != b && Unit(base) && maxIterations >= 1 && Pow(0.75, maxIterations - 1) <= tolerance
    requires Solves(TwoCycle(a, b, true, base, 1.0, QUADRATIC_ENERGY), maxIterations, tolerance, r)
    ensures r.Solved? && r.converged
  {
    var p := TwoCycle(a, b, true, base, 1.0, QUADRATIC_ENERGY);
    RefutationIsChecked(a, b, base, 1.0, QUADRATIC_ENERGY);
    RefutationGain(a, b, base);
    QuadraticEnergyIsLawful();
    hide LawfulSemantics, GainAtMost, p.Checked, Solves, TwoCycle;
    ConvergesWhenGainIsOutlasted(p, 0.75, 0.75, maxIterations, tolerance, r);
  }

  // ---------------------------------------------------------------- mixed feedback

  /** `a` supports `b`, `b` refutes `a`; only `a` has a base score. */
  function MixedFeedback(a: ArgId, b: ArgId): Problem {
    Problem(Baf({a, b}, [Edge(a, b, 1.0)], [Edge(b, a, 1.0)]), map[a := 1.0], DF_QUAD)
  }

  lemma MixedWiring(a: ArgId, b: ArgId)
    requires a != b
    ensures var p := MixedFeedback(a, b);
            p.Attackers(a) == [Edge(b, a, 1.0)] && p.Attackers(b) == [] && p.Supporters(a) == []
            && p.Supporters(b) == [Edge(a, b, 1.0)]
  {
    var e, f := Edge(a, b, 1.0), Edge(b, a, 1.0);
    IncomingSingle({a, b}, e, a);
    IncomingSingle({a, b}, e, b);
    IncomingSingle({a, b}, f, a);
    IncomingSingle({a, b}, f, b);
  }

  lemma MixedUpdates(a: ArgId, b: ArgId, v: real, w: real)
    requires a != b && Unit(v) && Unit(w)
    ensures MixedFeedback(a, b).Update(map[a := v, b := w], a) == DfQuadCombine(1.0, 0.0, w)
    ensures MixedFeedback(a, b).Update(map[a := v, b := w], b) == DfQuadCombine(0.0, v, 0.0)
  {
    var p, x := MixedFeedback(a, b), map[a := v, b := w];
    hide Incoming, Contributions, ProbSumOf, DfQuadCombine, p.Supporters, p.Attackers;
    MixedWiring(a, b);
    OneContribution(Edge(a, b, 1.0), x);
    OneContribution(Edge(b, a, 1.0), x);
    OneReason(v);
    OneReason(w);
    assert Lent(Edge(a, b, 1.0), x) == v && Lent(Edge(b, a, 1.0), x) == w;
  }

  lemma MixedSweep(a: ArgId, b: ArgId, v: real, w: real)
    requires a != b && Unit(v) && Unit(w)
    ensures MixedFeedback(a, b).Sweep(map[a := v, b := w]) == map[a := 1.0 - w, b := v]
  {
    var p, x := MixedFeedback(a, b), map[a := v, b := w];
    MixedUpdates(a, b, v, w);
    AtTheEnds(v, w);
    hide p.Update, DfQuadCombine;
  }

  lemma AtTheEnds(v: real, w: real)
    requires Unit(v) && Unit(w)
    ensures DfQuadCombine(1.0, 0.0, w) == 1.0 - w && DfQuadCombine(0.0, v, 0.0) == v
  {
  }

  lemma IncomingSingle(arguments: set<ArgId>, e: Edge, u: ArgId)
    requires Live(arguments, e)
    ensures Incoming(arguments, [e], u) == if e.dst == u then [e] else []
  {
    assert [e][..0] == [];
  }

  /** The four states of the orbit. */
  ghost function MixedA(k: nat): real {
    if k % 4 <= 1 then 1.0 else 0.0
  }

  ghost function MixedB(k: nat): real {
    if k % 4 == 1 || k % 4 == 2 then 1.0 else 0.0
  }

  lemma MixedTurn(k: nat)
    ensures MixedA(k + 1) == 1.0 - MixedB(k) && MixedB(k + 1) == MixedA(k)
    ensures MixedA(k + 1) != MixedA(k) || MixedB(k + 1) != MixedB(k)
    ensures Unit(MixedA(k)) && Unit(MixedB(k))
  {
  }

  /** The orbit has period four. */
  lemma {:induction false} MixedFeedbackTurns(a: ArgId, b: ArgId, k: nat)
    requires a != b
    ensures MixedFeedback(a, b).Iterate(k) == map[a := MixedA(k), b := MixedB(k)]
  {
    hide *;
    if k == 0 {
      MixedSeed(a, b);
    } else {
      MixedFeedbackTurns(a, b, k - 1);
      IterateUnfolds(MixedFeedback(a, b), k - 1);
      MixedTurn(k - 1);
      MixedSweep(a, b, MixedA(k - 1), MixedB(k - 1));
    }
  }

  lemma MixedSeed(a: ArgId, b: ArgId)
    requires a != b
    ensures MixedFeedback(a, b).Iterate(0) == map[a := MixedA(0), b := MixedB(0)]
  {
  }

  lemma MixedFeedbackMoves(a: ArgId, b: ArgId, tolerance: real, i: nat)
    requires a != b && tolerance < 1.0 && i > 0
    ensures !SettlesAt(MixedFeedback(a, b), tolerance, i)
  {
    var p := MixedFeedback(a, b);
    hide p.Iterate;
    MixedFeedbackTurns(a, b, i);
    MixedFeedbackTurns(a, b, i - 1);
    MixedTurn(i - 1);
    assert Abs(At(p.Iterate(i), a) - At(p.Iterate(i - 1), a)) == 1.0
        || Abs(At(p.Iterate(i), b) - At(p.Iterate(i - 1), b)) == 1.0;
  }

  lemma MixedFeedbackNeverSettles(a: ArgId, b: ArgId, maxIterations: nat, tolerance: real, r: Outcome)
    requires a != b && tolerance < 1.0 && maxIterations >= 1
    requires Solves(MixedFeedback(a, b), maxIterations, tolerance, r)
    ensures r.Solved? && !r.converged
    ensures r.acceptability == map[a := MixedA(maxIterations), b := MixedB(maxIterations)]
  {
    var p := MixedFeedback(a, b);
    assert p.Checked();
    hide *;
    SolvesMeans(p, maxIterations, tolerance, r);
    MixedFeedbackMoves(a, b, tolerance, r.iterations);
    MixedFeedbackTurns(a, b, maxIterations);
  }

  // ---------------------------------------------------------------- the probes

  /** The trajectory read back through the solver, one bound at a time. */
  method ReconstructTrajectory(p: Problem, horizon: nat, tolerance: real) returns (trajectory: seq<Strengths>)
    requires p.Checked()
    ensures |trajectory| == horizon
    ensures forall k :: 0 <= k < horizon && (forall j :: 1 <= j <= k ==> !SettlesAt(p, tolerance, j)) ==>
              trajectory[k] == p.Iterate(k + 1)
    ensures forall k, s: nat {:trigger trajectory[k], FirstSettles(p, tolerance, s)} ::
              s <= k + 1 && 0 <= k < horizon && FirstSettles(p, tolerance, s) ==> trajectory[k] == p.Iterate(s)
  {
    hide p.Iterate, SettlesAt, p.Checked;
    trajectory := [];
    for k := 1 to horizon + 1
      invariant |trajectory| == k - 1
      invariant forall i :: 0 <= i < k - 1 && (forall j :: 1 <= j <= i ==> !SettlesAt(p, tolerance, j)) ==>
                  trajectory[i] == p.Iterate(i + 1)
      invariant forall i, s: nat {:trigger trajectory[i], FirstSettles(p, tolerance, s)} ::
                  s <= i + 1 && 0 <= i < k - 1 && FirstSettles(p, tolerance, s) ==> trajectory[i] == p.Iterate(s)
    {
      var r := Solve(p, k, tolerance);
      ReadsBack(p, k, tolerance, r);
      trajectory := trajectory + [r.acceptability];
    }
  }

  ghost predicate FirstSettles(p: Problem, tolerance: real, s: nat) {
    s > 0 && SettlesAt(p, tolerance, s) && forall j :: 1 <= j < s ==> !SettlesAt(p, tolerance, j)
  }

  /** A bound of `k` reads the `k`-th state until the first settling sweep, and that state ever after. */
  lemma ReadsBack(p: Problem, k: nat, tolerance: real, r: Outcome)
    requires p.Checked() && k >= 1 && Solves(p, k, tolerance, r)
    ensures r.Solved?
    ensures (forall j :: 1 <= j < k ==> !SettlesAt(p, tolerance, j)) ==> r.acceptability == p.Iterate(k)
    ensures forall s: nat :: s <= k && FirstSettles(p, tolerance, s) ==> r.acceptability == p.Iterate(s)
  {
    hide p.Iterate, SettlesAt, p.Checked;
    if r.converged {
      assert SettlesAt(p, tolerance, r.iterations);
    }
    forall s: nat | s <= k && FirstSettles(p, tolerance, s)
      ensures r.acceptability == p.Iterate(s)
    {
      assert SettlesAt(p, tolerance, s);
    }
  }

  /** ... which need not be the true one: once mutual refutation has settled within a positive
      tolerance, the states still move, but the read-back no longer does. */
  lemma ReadBackIsFrozen(a: ArgId, b: ArgId, base: real, weight: real, tolerance: real, s: nat, r: Outcome)
    requires a != b && 0.0 < base <= 1.0 && 0.0 < weight <= 1.0
    requires FirstSettles(TwoCycle(a, b, true, base, weight, DF_QUAD), tolerance, s)
    requires Solves(TwoCycle(a, b, true, base, weight, DF_QUAD), s + 1, tolerance, r)
    ensures r.Solved? && r.acceptability != TwoCycle(a, b, true, base, weight, DF_QUAD).Iterate(s + 1)
  {
    var p := TwoCycle(a, b, true, base, weight, DF_QUAD);
    hide *;
    UnitIs(base);
    UnitIs(weight);
    RefutationIsChecked(a, b, base, weight, DF_QUAD);
    ReadsBack(p, s + 1, tolerance, r);
    RefutationIterates(a, b, base, weight, s);
    RefutationIterates(a, b, base, weight, s + 1);
    RefutationStep(base, weight, s);
    StepIsPositive(base, weight, s + 1);
    DifferentStates(a, b, Refuted(base, weight, s), Refuted(base, weight, s + 1));
  }

  lemma {:induction false} PowIsPositive(base: real, k: nat)
    requires base > 0.0
    ensures Pow(base, k) > 0.0
  {
    if k > 0 {
      PowIsPositive(base, k - 1);
      PowStep(base, k - 1);
      PositiveProduct(base, Pow(base, k - 1));
    }
  }

  lemma PositiveProduct(x: real, y: real)
    requires x > 0.0 && y > 0.0
    ensures Scaled(x, y) == x * y > 0.0
  {
  }

  lemma StepIsPositive(base: real, weight: real, i: nat)
    requires base > 0.0 && weight > 0.0
    ensures StepSize(base, weight, i) > 0.0
  {
    PositiveProduct(base, weight);
    PowIsPositive(base * weight, i);
    PositiveProduct(base, Pow(base * weight, i));
    hide Pow;
  }

  lemma UnitIs(x: real)
    ensures Unit(x) <==> 0.0 <= x <= 1.0
  {
  }

  lemma DifferentStates(a: ArgId, b: ArgId, v: real, w: real)
    requires Abs(w - v) > 0.0
    ensures Both(a, b, v) != Both(a, b, w)
  {
    assert Both(a, b, v)[a] == v && Both(a, b, w)[a] == w;
  }
}
