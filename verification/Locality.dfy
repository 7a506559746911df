/**
 Arguments that take their evidence only from one another do not notice the rest of a framework:
 sweep for sweep they have the strengths they would have alone. So the solver of Qbaf.dfy names
 exactly the unresolved loops of a disjoint union (`CompositeRegion`), the localization test of
 scripts/b2_cyclic_oscillation.py.
 */
module Locality {
  import opened Confidence
  import opened GradualSemantics
  import opened Qbaf
  import opened Oscillation
  import opened MutualSupport

  /** Both problems give the arguments of `part` the same base scores and evidence, all of it from
      within. */
  ghost predicate AlikeOn(p: Problem, q: Problem, part: set<ArgId>) {
    && p.sem == q.sem && part <= p.baf.arguments && part <= q.baf.arguments
    && forall a :: a in part ==> AlikeAt(p, q, part, a)
  }

  ghost predicate AlikeAt(p: Problem, q: Problem, part: set<ArgId>, a: ArgId) {
    && At(p.base, a) == At(q.base, a)
    && p.Supporters(a) == q.Supporters(a) && p.Attackers(a) == q.Attackers(a)
    && (forall e :: e in p.Supporters(a) || e in p.Attackers(a) ==> e.src in part)
  }

  lemma SameContributions(edges: seq<Edge>, x: Strengths, y: Strengths)
    requires forall e :: e in edges ==> At(x, e.src) == At(y, e.src)
    ensures Contributions(edges, x) == Contributions(edges, y)
  {
    assert forall i :: 0 <= i < |edges| ==> edges[i] in edges;
    assert forall i :: 0 <= i < |edges| ==> Contributions(edges, x)[i] == Contributions(edges, y)[i];
  }

  /** Evidence from outside never reaches the part. */
  lemma {:induction false} PartIterates(p: Problem, q: Problem, part: set<ArgId>, k: nat)
    requires AlikeOn(p, q, part)
    ensures forall a :: a in part ==> At(p.Iterate(k), a) == At(q.Iterate(k), a)
  {
    hide *;
    if k > 0 {
      PartIterates(p, q, part, k - 1);
      IterateUnfolds(p, k - 1);
      IterateUnfolds(q, k - 1);
    } else {
      IterateUnfolds(p, 0);
      IterateUnfolds(q, 0);
    }
    forall a | a in part
      ensures At(p.Iterate(k), a) == At(q.Iterate(k), a)
    {
      if k > 0 {
        UpdatesAlike(p, q, part, p.Iterate(k - 1), q.Iterate(k - 1), a);
      }
      SeedsAlike(p, q, part, a);
    }
  }

  lemma UpdatesAlike(p: Problem, q: Problem, part: set<ArgId>, x: Strengths, y: Strengths, a: ArgId)
    requires AlikeOn(p, q, part) && a in part && forall b :: b in part ==> At(x, b) == At(y, b)
    ensures At(p.Sweep(x), a) == At(q.Sweep(y), a)
  {
    assert AlikeAt(p, q, part, a);
    hide p.Supporters, p.Attackers, Contributions, At;
    SameContributions(p.Supporters(a), x, y);
    SameContributions(p.Attackers(a), x, y);
    SweepAt(p, x, a);
    SweepAt(q, y, a);
  }

  lemma SweepAt(p: Problem, x: Strengths, a: ArgId)
    requires a in p.baf.arguments
    ensures At(p.Sweep(x), a) == p.Update(x, a)
  {
    hide p.Update;
  }

  lemma SeedsAlike(p: Problem, q: Problem, part: set<ArgId>, a: ArgId)
    requires AlikeOn(p, q, part) && a in part
    ensures At(p.Seed(), a) == At(q.Seed(), a)
  {
    assert AlikeAt(p, q, part, a);
    hide p.Supporters, p.Attackers;
  }

  /** What a sweep still moves within the part is what it would move there alone. */
  lemma RegionIsLocal(p: Problem, q: Problem, part: set<ArgId>, tolerance: real, i: nat)
    requires AlikeOn(p, q, part) && i > 0
    ensures MovingAt(p, tolerance, i) * part == MovingAt(q, tolerance, i) * part
  {
    hide *;
    forall a | a in part
      ensures a in MovingAt(p, tolerance, i) <==> a in MovingAt(q, tolerance, i)
    {
      MovesAlike(p, q, part, tolerance, i, a);
    }
  }

  lemma MovesAlike(p: Problem, q: Problem, part: set<ArgId>, tolerance: real, i: nat, a: ArgId)
    requires AlikeOn(p, q, part) && i > 0 && a in part
    ensures a in MovingAt(p, tolerance, i) <==> a in MovingAt(q, tolerance, i)
  {
    hide *;
    InBoth(p, q, part, a);
    PartIterateAt(p, q, part, i, a);
    PartIterateAt(p, q, part, i - 1, a);
    MovesAt(p, tolerance, i, a);
    MovesAt(q, tolerance, i, a);
  }

  lemma InBoth(p: Problem, q: Problem, part: set<ArgId>, a: ArgId)
    requires AlikeOn(p, q, part) && a in part
    ensures a in p.baf.arguments && a in q.baf.arguments
  {
    hide AlikeAt;
  }

  lemma PartIterateAt(p: Problem, q: Problem, part: set<ArgId>, k: nat, a: ArgId)
    requires AlikeOn(p, q, part) && a in part
    ensures At(p.Iterate(k), a) == At(q.Iterate(k), a)
  {
    hide *;
    PartIterates(p, q, part, k);
  }

  lemma MovesAt(p: Problem, tolerance: real, i: nat, a: ArgId)
    requires i > 0
    ensures a in MovingAt(p, tolerance, i)
       <==> a in p.baf.arguments && Abs(At(p.Iterate(i), a) - At(p.Iterate(i - 1), a)) > tolerance
  {
    hide p.Iterate;
  }

  // ---------------------------------------------------------------- a settling and an oscillating loop

  /** A mutual support at `base` beside a critical mutual refutation, in one framework. */
  function Composite(s: ArgId, t: ArgId, x: ArgId, y: ArgId, base: real): Problem {
    Problem(Baf({s, t, x, y}, [Edge(s, t, 1.0), Edge(t, s, 1.0)], [Edge(x, y, 1.0), Edge(y, x, 1.0)]),
            map[s := base, t := base, x := 1.0, y := 1.0], DF_QUAD)
  }

  lemma CompositeWiring(s: ArgId, t: ArgId, x: ArgId, y: ArgId, base: real)
    requires s != t && x != y && {s, t} !! {x, y}
    ensures var p := Composite(s, t, x, y, base);
            && AlikeOn(p, TwoCycle(s, t, false, base, 1.0, DF_QUAD), {s, t})
            && AlikeOn(p, TwoCycle(x, y, true, 1.0, 1.0, DF_QUAD), {x, y})
  {
    var p := Composite(s, t, x, y, base);
    var support, refute := TwoCycle(s, t, false, base, 1.0, DF_QUAD), TwoCycle(x, y, true, 1.0, 1.0, DF_QUAD);
    forall a | a in {s, t}
      ensures AlikeAt(p, support, {s, t}, a)
    {
      IncomingPair({s, t, x, y}, Edge(s, t, 1.0), Edge(t, s, 1.0), a);
      IncomingPair({s, t, x, y}, Edge(x, y, 1.0), Edge(y, x, 1.0), a);
      IncomingPair({s, t}, Edge(s, t, 1.0), Edge(t, s, 1.0), a);
      IncomingNone({s, t}, a);
      hide Incoming;
    }
    forall a | a in {x, y}
      ensures AlikeAt(p, refute, {x, y}, a)
    {
      IncomingPair({s, t, x, y}, Edge(s, t, 1.0), Edge(t, s, 1.0), a);
      IncomingPair({s, t, x, y}, Edge(x, y, 1.0), Edge(y, x, 1.0), a);
      IncomingPair({x, y}, Edge(x, y, 1.0), Edge(y, x, 1.0), a);
      IncomingNone({x, y}, a);
      hide Incoming;
    }
  }

  lemma AlwaysMoving(x: ArgId, y: ArgId, tolerance: real, i: nat)
    requires x != y && tolerance < 1.0 && i > 0
    ensures MovingAt(TwoCycle(x, y, true, 1.0, 1.0, DF_QUAD), tolerance, i) == {x, y}
  {
    assert Unit(1.0);
    hide *;
    RefutationRegion(x, y, 1.0, 1.0, tolerance, i - 1);
    PowOfOne(i);
    StepIs(i);
  }

  lemma StepIs(i: nat)
    ensures StepSize(1.0, 1.0, i) == Pow(1.0, i)
  {
  }

  /** The union never converges, and the region named is the refutation loop, with the support loop
      only as long as that still rises by more than the tolerance. */
  lemma CompositeRegion(s: ArgId, t: ArgId, x: ArgId, y: ArgId, base: real, maxIterations: nat, tolerance: real,
                        r: Outcome)
    requires s != t && x != y && {s, t} !! {x, y} && Unit(base) && tolerance < 1.0 && maxIterations >= 1
    requires Solves(Composite(s, t, x, y, base), maxIterations, tolerance, r)
    ensures r.Solved? && !r.converged
    ensures r.unstable == {x, y} + if RiseAt(base, 1.0, maxIterations + 1) > tolerance then {s, t} else {}
  {
    hide *;
    var p := Composite(s, t, x, y, base);
    CompositeIsChecked(s, t, x, y, base);
    CompositeWiring(s, t, x, y, base);
    SolvesMeans(p, maxIterations, tolerance, r);
    assert r.iterations > 0;
    CompositeMoves(p, s, t, x, y, base, tolerance, r.iterations);
    assert x in MovingAt(p, tolerance, r.iterations);
    MovesUnsettle(p, tolerance, r.iterations, x);
    CompositeMoves(p, s, t, x, y, base, tolerance, maxIterations + 1);
  }

  lemma CompositeIsChecked(s: ArgId, t: ArgId, x: ArgId, y: ArgId, base: real)
    requires Unit(base)
    ensures Composite(s, t, x, y, base).Checked()
    ensures Composite(s, t, x, y, base).baf.arguments == {s, t} + {x, y}
  {
  }

  lemma CompositeMoves(p: Problem, s: ArgId, t: ArgId, x: ArgId, y: ArgId, base: real, tolerance: real, i: nat)
    requires s != t && x != y && {s, t} !! {x, y} && Unit(base) && tolerance < 1.0 && i > 0
    requires AlikeOn(p, TwoCycle(s, t, false, base, 1.0, DF_QUAD), {s, t})
    requires AlikeOn(p, TwoCycle(x, y, true, 1.0, 1.0, DF_QUAD), {x, y})
    requires p.baf.arguments == {s, t} + {x, y}
    ensures MovingAt(p, tolerance, i) == {x, y} + if RiseAt(base, 1.0, i) > tolerance then {s, t} else {}
  {
    hide *;
    UnitIs(1.0);
    RegionIsLocal(p, TwoCycle(s, t, false, base, 1.0, DF_QUAD), {s, t}, tolerance, i);
    RegionIsLocal(p, TwoCycle(x, y, true, 1.0, 1.0, DF_QUAD), {x, y}, tolerance, i);
    SupportMoves(s, t, base, 1.0, tolerance, i);
    AlwaysMoving(x, y, tolerance, i);
    MovingAreArguments(p, tolerance, i);
    TwoParts(MovingAt(p, tolerance, i), {s, t}, {x, y},
             MovingAt(TwoCycle(s, t, false, base, 1.0, DF_QUAD), tolerance, i) * {s, t});
  }

  /** What lies in two parts is its share of the first and its share of the second. */
  lemma TwoParts(moving: set<ArgId>, first: set<ArgId>, second: set<ArgId>, share: set<ArgId>)
    requires moving <= first + second && moving * first == share && moving * second == second
    ensures moving == second + share
  {
  }

  lemma MovingAreArguments(p: Problem, tolerance: real, i: nat)
    requires i > 0
    ensures MovingAt(p, tolerance, i) <= p.baf.arguments
  {
  }

  lemma MovesUnsettle(p: Problem, tolerance: real, i: nat, a: ArgId)
    requires i > 0 && a in MovingAt(p, tolerance, i)
    ensures !SettlesAt(p, tolerance, i)
  {
    hide p.Iterate;
  }
}
