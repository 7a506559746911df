/**
 The reinforcing motif of scripts/b2_cyclic_oscillation.py, solved exactly: two arguments at base
 `b` that support one another over edges of strength `w` under DF-QuAD rise by b * q^i at sweep `i`,
 where q = (1 - b) * w, towards b / (1 - q). `SupportOutcome` is the solver's verdict on the loop at
 every bound and tolerance, and how far short of that limit it stops.
 */
module MutualSupport {
  import opened Confidence
  import opened GradualSemantics
  import opened Qbaf
  import opened QbafDynamics
  import opened Oscillation

  /** The factor by which each rise falls short of the one before. */
  ghost function Echo(base: real, weight: real): real {
    (1.0 - base) * weight
  }

  /** What one sweep of mutual support makes of the common strength. */
  ghost function Reinforce(base: real, weight: real, v: real): real {
    base + Scaled(Echo(base, weight), v)
  }

  lemma SupportSweep(a: ArgId, b: ArgId, base: real, weight: real, v: real)
    requires a != b && Unit(weight) && Unit(v)
    ensures TwoCycle(a, b, false, base, weight, DF_QUAD).Sweep(Both(a, b, v)) == Both(a, b, Reinforce(base, weight, v))
  {
    var p, x := TwoCycle(a, b, false, base, weight, DF_QUAD), Both(a, b, v);
    var e, f := Edge(a, b, weight), Edge(b, a, weight);
    IncomingPair({a, b}, e, f, a);
    IncomingPair({a, b}, e, f, b);
    assert p.Supporters(a) == [f] && p.Supporters(b) == [e];
    assert p.Attackers(a) == [] && p.Attackers(b) == [];
    hide Incoming, Contributions, ProbSumOf;
    OneContribution(e, x);
    OneContribution(f, x);
    LentByOne(e, x, v);
    LentByOne(f, x, v);
    hide Lent, DfQuadCombine, Reinforce;
    OneReason(Scaled(weight, v));
    assert p.Update(x, a) == DfQuadCombine(base, Scaled(weight, v), 0.0);
    assert p.Update(x, b) == DfQuadCombine(base, Scaled(weight, v), 0.0);
    ReinforceIs(base, weight, v);
  }

  lemma ReinforceIs(base: real, weight: real, v: real)
    requires Unit(weight) && Unit(v)
    ensures DfQuadCombine(base, Scaled(weight, v), 0.0) == Reinforce(base, weight, v)
  {
    NonNegative(weight, v);
    assert (1.0 - base) * Scaled(weight, v) == Scaled(Echo(base, weight), v);
  }

  /** The common strength after `k` sweeps: each step adds its rise. */
  ghost function Risen(base: real, weight: real, k: nat): real {
    if k == 0 then base else Risen(base, weight, k - 1) + RiseAt(base, weight, k)
  }

  /** The size of the `i`-th step. */
  ghost function RiseAt(base: real, weight: real, i: nat): real {
    Scaled(base, Pow(Echo(base, weight), i))
  }

  lemma EchoInUnit(base: real, weight: real)
    requires Unit(base) && Unit(weight)
    ensures Unit(Echo(base, weight))
  {
    ProductInUnit(1.0 - base, weight);
  }

  /** The sum of the rises in closed form: (1 - q) * v = base * (1 - q^(k+1)). */
  lemma {:induction false} RisenIs(base: real, weight: real, k: nat)
    ensures Scaled(1.0 - Echo(base, weight), Risen(base, weight, k)) == base - RiseAt(base, weight, k + 1)
  {
    var q := Echo(base, weight);
    hide Echo, Scaled, Pow;
    PowStep(q, k);
    if k == 0 {
      GeometricStart(base, q);
      assert Pow(q, 0) == 1.0;
    } else {
      RisenIs(base, weight, k - 1);
      GeometricStep(base, q, Risen(base, weight, k - 1), Pow(q, k));
    }
  }

  lemma GeometricStart(base: real, q: real)
    ensures Scaled(1.0 - q, base) == base - Scaled(base, Scaled(q, 1.0))
  {
  }

  lemma GeometricStep(base: real, q: real, v: real, power: real)
    requires Scaled(1.0 - q, v) == base - Scaled(base, power)
    ensures Scaled(1.0 - q, v + Scaled(base, power)) == base - Scaled(base, Scaled(q, power))
  {
    assert (1.0 - q) * (v + base * power) == (1.0 - q) * v + base * power - base * (q * power);
  }

  /** One more sweep adds one more rise. */
  lemma RisenIsReinforced(base: real, weight: real, k: nat)
    ensures Reinforce(base, weight, Risen(base, weight, k)) == Risen(base, weight, k + 1)
  {
    RisenIs(base, weight, k);
    assert Risen(base, weight, k + 1) == Risen(base, weight, k) + RiseAt(base, weight, k + 1);
    hide Risen, RiseAt, Echo;
  }

  lemma {:induction false} RisenInUnit(base: real, weight: real, k: nat)
    requires Unit(base) && Unit(weight)
    ensures Unit(Risen(base, weight, k))
  {
    if k > 0 {
      RisenInUnit(base, weight, k - 1);
      RisenIsReinforced(base, weight, k - 1);
      ReinforceInUnit(base, weight, Risen(base, weight, k - 1));
    }
  }

  lemma ReinforceInUnit(base: real, weight: real, v: real)
    requires Unit(base) && Unit(weight) && Unit(v)
    ensures Unit(Reinforce(base, weight, v))
  {
    ProductInUnit(weight, v);
    ProductInUnit(1.0 - base, weight * v);
    NonNegative(1.0 - base, 1.0 - weight * v);
    assert Scaled(Echo(base, weight), v) == (1.0 - base) * (weight * v);
  }

  /** Both rise, each step by a constant factor less. */
  lemma {:induction false} SupportIterates(a: ArgId, b: ArgId, base: real, weight: real, k: nat)
    requires a != b && Unit(base) && Unit(weight)
    ensures TwoCycle(a, b, false, base, weight, DF_QUAD).Iterate(k) == Both(a, b, Risen(base, weight, k))
  {
    var p := TwoCycle(a, b, false, base, weight, DF_QUAD);
    hide p.Update, p.Sweep, Reinforce;
    if k > 0 {
      SupportIterates(a, b, base, weight, k - 1);
      RisenInUnit(base, weight, k - 1);
      SupportSweep(a, b, base, weight, Risen(base, weight, k - 1));
      RisenIsReinforced(base, weight, k - 1);
      IterateUnfolds(p, k - 1);
    } else {
      IterateUnfolds(p, 0);
    }
  }

  lemma RiseFalls(base: real, weight: real, i: nat, j: nat)
    requires Unit(base) && Unit(weight) && i <= j
    ensures 0.0 <= RiseAt(base, weight, j) <= RiseAt(base, weight, i)
  {
    var q := Echo(base, weight);
    EchoInUnit(base, weight);
    hide Echo;
    PowFalls(q, i, j);
    Grows(base, Pow(q, j), Pow(q, i));
    NonNegative(base, Pow(q, j));
    hide Pow;
  }

  lemma SupportMoves(a: ArgId, b: ArgId, base: real, weight: real, tolerance: real, i: nat)
    requires a != b && Unit(base) && Unit(weight) && i > 0
    ensures var p := TwoCycle(a, b, false, base, weight, DF_QUAD);
            && (SettlesAt(p, tolerance, i) <==> RiseAt(base, weight, i) <= tolerance)
            && MovingAt(p, tolerance, i) == if RiseAt(base, weight, i) > tolerance then {a, b} else {}
  {
    var p := TwoCycle(a, b, false, base, weight, DF_QUAD);
    hide p.Iterate, RiseAt;
    SupportIterates(a, b, base, weight, i);
    SupportIterates(a, b, base, weight, i - 1);
    RiseFalls(base, weight, i, i);
    assert Risen(base, weight, i) == Risen(base, weight, i - 1) + RiseAt(base, weight, i);
    assert At(p.Iterate(i), a) == Risen(base, weight, i) && At(p.Iterate(i - 1), a) == Risen(base, weight, i - 1);
  }

  lemma SupportIsChecked(a: ArgId, b: ArgId, base: real, weight: real)
    requires Unit(base) && Unit(weight)
    ensures TwoCycle(a, b, false, base, weight, DF_QUAD).Checked()
  {
  }

  /** Mutual support: the loop converges within the bound exactly when the bound's rise falls within
      the tolerance, and it stops at the first sweep whose rise does. It never oscillates; a bound
      too low leaves both arguments unresolved. */
  lemma SupportOutcome(a: ArgId, b: ArgId, base: real, weight: real, maxIterations: nat, tolerance: real, r: Outcome)
    requires a != b && Unit(base) && Unit(weight) && maxIterations >= 1
    requires Solves(TwoCycle(a, b, false, base, weight, DF_QUAD), maxIterations, tolerance, r)
    ensures r.Solved? && 1 <= r.iterations && (r.converged <==> RiseAt(base, weight, maxIterations) <= tolerance)
    ensures r.converged ==> RiseAt(base, weight, r.iterations) <= tolerance
    ensures forall j :: 1 <= j < r.iterations ==> RiseAt(base, weight, j) > tolerance
    ensures r.acceptability == Both(a, b, Risen(base, weight, r.iterations))
    ensures !r.converged ==> r.iterations == maxIterations
    ensures !r.converged ==> r.unstable == if RiseAt(base, weight, maxIterations + 1) > tolerance then {a, b} else {}
  {
    hide *;
    var p := TwoCycle(a, b, false, base, weight, DF_QUAD);
    SupportIsChecked(a, b, base, weight);
    SolvesMeans(p, maxIterations, tolerance, r);
    SupportIterates(a, b, base, weight, r.iterations);
    forall j | 1 <= j <= r.iterations
      ensures SettlesAt(p, tolerance, j) <==> RiseAt(base, weight, j) <= tolerance
    {
      SupportMoves(a, b, base, weight, tolerance, j);
    }
    RiseFalls(base, weight, r.iterations, maxIterations);
    SupportMoves(a, b, base, weight, tolerance, maxIterations + 1);
  }

  /** A converged loop stops short of base / (1 - q) by at most the tolerance times q / (1 - q). */
  lemma ConvergedFallsShortBy(a: ArgId, b: ArgId, base: real, weight: real, maxIterations: nat, tolerance: real,
                              r: Outcome)
    requires a != b && Unit(base) && Unit(weight) && maxIterations >= 1
    requires Solves(TwoCycle(a, b, false, base, weight, DF_QUAD), maxIterations, tolerance, r) && r.Solved? && r.converged
    ensures var q := Echo(base, weight);
            0.0 <= base - Scaled(1.0 - q, At(r.acceptability, a)) <= Scaled(q, tolerance)
  {
    hide *;
    SupportOutcome(a, b, base, weight, maxIterations, tolerance, r);
    AtBoth(a, b, Risen(base, weight, r.iterations));
    RisenIs(base, weight, r.iterations);
    RiseFalls(base, weight, r.iterations + 1, r.iterations + 1);
    NextRise(base, weight, r.iterations, tolerance);
  }

  lemma NextRise(base: real, weight: real, i: nat, tolerance: real)
    requires Unit(base) && Unit(weight) && RiseAt(base, weight, i) <= tolerance
    ensures RiseAt(base, weight, i + 1) <= Scaled(Echo(base, weight), tolerance)
  {
    var q := Echo(base, weight);
    EchoInUnit(base, weight);
    hide Echo, Pow, Scaled;
    PowStep(q, i);
    Swap(base, q, Pow(q, i));
    Grows(q, Scaled(base, Pow(q, i)), tolerance);
  }
}
