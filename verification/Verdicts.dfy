/**
 What the adjudication of src/iknos/core/qbaf.py makes of the edges as they are given: the doubt a
 set of reasons leaves, the mass they add up to, and the verdict each semantics reaches from them.

 `WeighsDfQuad` and `WeighsQuadraticEnergy` hold at every argument and every sweep. `FanVerdict`
 gives a hypothesis with leaf reasons its exact value; `SemanticsRankOppositely` says which
 fixtures the two semantics rank oppositely, one strong reason against several weak ones.
 */
module Verdicts {
  import opened Confidence
  import opened GradualSemantics
  import opened Qbaf
  import opened QbafDynamics
  import opened Oscillation

  /** The edge is a reason for or against `a`: it ends there and both its ends are arguments. */
  ghost predicate Reason(arguments: set<ArgId>, e: Edge, a: ArgId) {
    e.dst == a && {e.src, e.dst} <= arguments
  }

  /** How strong a reason the edge is, at the given strengths. A missing source lends nothing. */
  ghost function Weight(e: Edge, x: map<ArgId, real>): real {
    e.strength * (if e.src in x.Keys then x[e.src] else 0.0)
  }

  /** The chance that no reason among `edges` holds, each on its own. */
  ghost function Doubt(arguments: set<ArgId>, edges: seq<Edge>, x: Strengths, a: ArgId): real {
    if edges == [] then 1.0
    else
      var n := |edges| - 1;
      Scaled(Doubt(arguments, edges[..n], x, a),
             if Reason(arguments, edges[n], a) then 1.0 - Weight(edges[n], x) else 1.0)
  }

  /** What the reasons among `edges` add up to. */
  ghost function Mass(arguments: set<ArgId>, edges: seq<Edge>, x: Strengths, a: ArgId): real {
    if edges == [] then 0.0
    else
      var n := |edges| - 1;
      Mass(arguments, edges[..n], x, a) + if Reason(arguments, edges[n], a) then Weight(edges[n], x) else 0.0
  }

  lemma WeightIsLent(e: Edge, x: Strengths)
    ensures Lent(e, x) == Weight(e, x)
  {
  }

  lemma ReasonIsIncoming(arguments: set<ArgId>, edges: seq<Edge>, a: ArgId)
    requires edges != []
    ensures Incoming(arguments, edges, a)
         == Incoming(arguments, edges[..|edges| - 1], a)
            + if Reason(arguments, edges[|edges| - 1], a) then [edges[|edges| - 1]] else []
  {
  }

  /** The probabilistic sum leaves exactly the doubt, the plain sum is exactly the mass. */
  lemma {:induction false} AggregatesAre(arguments: set<ArgId>, edges: seq<Edge>, x: Strengths, a: ArgId)
    ensures ProbSumOf(Contributions(Incoming(arguments, edges, a), x)) == 1.0 - Doubt(arguments, edges, x, a)
    ensures PlainSumOf(Contributions(Incoming(arguments, edges, a), x)) == Mass(arguments, edges, x, a)
  {
    hide Incoming, Contributions, ProbSumOf, PlainSumOf, OneOrOther, Scaled, Weight, Lent, Reason;
    if edges == [] {
      NoReason(arguments, x, a);
    } else {
      var front, e := edges[..|edges| - 1], edges[|edges| - 1];
      var before := Contributions(Incoming(arguments, front, a), x);
      AggregatesAre(arguments, front, x, a);
      ReasonIsIncoming(arguments, edges, a);
      if Reason(arguments, e, a) {
        ContributionsAppend(Incoming(arguments, front, a), e, x);
        WeightIsLent(e, x);
        ProbSumAppend(before, Lent(e, x));
        PlainSumAppend(before, Lent(e, x));
        LessDoubt(Doubt(arguments, front, x, a), Weight(e, x));
      } else {
        assert Incoming(arguments, front, a) + [] == Incoming(arguments, front, a);
        SameDoubt(Doubt(arguments, front, x, a));
      }
    }
  }

  lemma NoReason(arguments: set<ArgId>, x: Strengths, a: ArgId)
    ensures var cs := Contributions(Incoming(arguments, [], a), x);
            ProbSumOf(cs) == 0.0 && PlainSumOf(cs) == 0.0
  {
  }

  lemma LessDoubt(doubt: real, c: real)
    ensures OneOrOther(1.0 - doubt, c) == 1.0 - Scaled(doubt, 1.0 - c)
  {
    assert doubt * (1.0 - c) == doubt - doubt * c;
  }

  lemma SameDoubt(doubt: real)
    ensures Scaled(doubt, 1.0) == doubt
  {
  }

  /** Under DF-QuAD the surplus of doubt on one side is what the verdict turns on. */
  lemma WeighsDfQuad(p: Problem, x: Strengths, a: ArgId)
    requires p.sem == DF_QUAD && a in p.baf.arguments
    ensures var pro := Doubt(p.baf.arguments, p.baf.supports, x, a);
            var contra := Doubt(p.baf.arguments, p.baf.attacks, x, a);
            var b, v := At(p.base, a), At(p.Sweep(x), a);
            && (pro <= contra ==> 1.0 - v == Scaled(1.0 - b, 1.0 - (contra - pro)))
            && (contra <= pro ==> v == Scaled(b, 1.0 - (pro - contra)))
  {
    hide Doubt, Incoming, Contributions, ProbSumOf;
    AggregatesAre(p.baf.arguments, p.baf.supports, x, a);
    AggregatesAre(p.baf.arguments, p.baf.attacks, x, a);
    CombinedDoubt(At(p.base, a), Doubt(p.baf.arguments, p.baf.supports, x, a),
                  Doubt(p.baf.arguments, p.baf.attacks, x, a));
    hide DfQuadCombine;
  }

  lemma CombinedDoubt(b: real, pro: real, contra: real)
    ensures var v := DfQuadCombine(b, 1.0 - pro, 1.0 - contra);
            && (pro <= contra ==> 1.0 - v == Scaled(1.0 - b, 1.0 - (contra - pro)))
            && (contra <= pro ==> v == Scaled(b, 1.0 - (pro - contra)))
  {
    var up, down := contra - pro, pro - contra;
    assert (1.0 - pro) - (1.0 - contra) == up && (1.0 - contra) - (1.0 - pro) == down;
    ShareOf(1.0 - b, up);
    ShareOf(b, down);
    var v := DfQuadCombine(b, 1.0 - pro, 1.0 - contra);
    assert v == if up > 0.0 then b + Scaled(1.0 - b, up) else if down > 0.0 then b - Scaled(b, down) else b;
    hide *;
    assert pro == contra ==> up == 0.0 == down;
    NoShare(b);
    NoShare(1.0 - b);
  }

  lemma ShareOf(b: real, x: real)
    ensures Scaled(b, 1.0 - x) == b - Scaled(b, x)
  {
  }

  lemma NoShare(b: real)
    ensures Scaled(b, 0.0) == 0.0
  {
  }

  /** Under Quadratic Energy it is the surplus of mass, squared. */
  lemma WeighsQuadraticEnergy(p: Problem, x: Strengths, a: ArgId)
    requires p.sem == QUADRATIC_ENERGY && a in p.baf.arguments
    ensures var net := Mass(p.baf.arguments, p.baf.supports, x, a) - Mass(p.baf.arguments, p.baf.attacks, x, a);
            var b, v := At(p.base, a), At(p.Sweep(x), a);
            && (net >= 0.0 ==> Scaled(1.0 - v, OnePlusSquare(net)) == 1.0 - b)
            && (net <= 0.0 ==> Scaled(v, OnePlusSquare(net)) == b)
  {
    hide Mass, Incoming, Contributions, PlainSumOf;
    AggregatesAre(p.baf.arguments, p.baf.supports, x, a);
    AggregatesAre(p.baf.arguments, p.baf.attacks, x, a);
    CombinedMass(At(p.base, a), Mass(p.baf.arguments, p.baf.supports, x, a),
                 Mass(p.baf.arguments, p.baf.attacks, x, a));
    hide QuadraticEnergyCombine;
  }

  lemma CombinedMass(b: real, pro: real, contra: real)
    ensures var net, v := pro - contra, QuadraticEnergyCombine(b, pro, contra);
            && (net >= 0.0 ==> Scaled(1.0 - v, OnePlusSquare(net)) == 1.0 - b)
            && (net <= 0.0 ==> Scaled(v, OnePlusSquare(net)) == b)
  {
    var net := pro - contra;
    PhiBounds(net);
    PhiBounds(-net);
    hide Phi;
    assert -net * -net == net * net;
    if net >= 0.0 {
      Undone(1.0 - b, Phi(net), net * net);
    } else {
      Undone(b, Phi(-net), net * net);
    }
  }

  lemma Undone(b: real, squashed: real, sq: real)
    requires squashed * (1.0 + sq) == sq
    ensures (b - b * squashed) * (1.0 + sq) == b
  {
    assert (b - b * squashed) * (1.0 + sq) == b * (1.0 + sq) - b * (squashed * (1.0 + sq));
    assert b * (1.0 + sq) - b * sq == b;
  }

  /** The aggregates read off are what the reasons leave or add up to, at any strengths. */
  lemma ReadOffWeighs(p: Problem, x: Strengths, a: ArgId)
    ensures var (arguments, pro, contra) := (p.baf.arguments, p.baf.supports, p.baf.attacks);
            && (p.sem == DF_QUAD ==>
                  Aggregates(p, x, a) == (1.0 - Doubt(arguments, pro, x, a), 1.0 - Doubt(arguments, contra, x, a)))
            && (p.sem == QUADRATIC_ENERGY ==>
                  Aggregates(p, x, a) == (Mass(arguments, pro, x, a), Mass(arguments, contra, x, a)))
  {
    AggregatesAre(p.baf.arguments, p.baf.supports, x, a);
    AggregatesAre(p.baf.arguments, p.baf.attacks, x, a);
    hide Doubt, Mass, Incoming, Contributions, ProbSumOf, PlainSumOf;
  }

  // ---------------------------------------------------------------- a hypothesis with leaf reasons

  /** No edge into `a` has both ends in the framework. */
  ghost predicate Leaf(p: Problem, a: ArgId) {
    forall e :: e in p.baf.supports + p.baf.attacks ==> !Reason(p.baf.arguments, e, a)
  }

  /** The reasons among `edges` are leaves, and each weighs `c` at its base score. */
  ghost predicate LeafReasons(p: Problem, edges: seq<Edge>, h: ArgId, c: real) {
    forall e :: e in edges && Reason(p.baf.arguments, e, h) ==> Leaf(p, e.src) && Weight(e, p.base) == c
  }

  /** How many reasons among `edges` bear on `h`. */
  ghost function Reasons(arguments: set<ArgId>, edges: seq<Edge>, h: ArgId): nat {
    if edges == [] then 0
    else
      var n := |edges| - 1;
      Reasons(arguments, edges[..n], h) + if Reason(arguments, edges[n], h) then 1 else 0
  }

  lemma {:induction false} NoneIncoming(arguments: set<ArgId>, edges: seq<Edge>, a: ArgId)
    requires forall e :: e in edges ==> !Reason(arguments, e, a)
    ensures Incoming(arguments, edges, a) == []
  {
    if edges != [] {
      var front, e := edges[..|edges| - 1], edges[|edges| - 1];
      assert edges == front + [e];
      NoneIncoming(arguments, front, a);
      ReasonIsIncoming(arguments, edges, a);
    }
  }

  /** A leaf keeps its base score. */
  lemma LeafStays(p: Problem, kappa: real, a: ArgId, k: nat)
    requires LawfulSemantics(p.sem, kappa) && Leaf(p, a) && a in p.baf.arguments
    ensures At(p.Iterate(k), a) == At(p.base, a)
  {
    hide *;
    IterateUnfolds(p, 0);
    LeafSeeds(p, a);
    if k > 0 {
      IterateUnfolds(p, k - 1);
      LeafSweeps(p, kappa, p.Iterate(k - 1), a);
    }
  }

  lemma LeafSeeds(p: Problem, a: ArgId)
    requires a in p.baf.arguments
    ensures At(p.Seed(), a) == At(p.base, a)
  {
  }

  lemma LeafSweeps(p: Problem, kappa: real, x: Strengths, a: ArgId)
    requires LawfulSemantics(p.sem, kappa) && Leaf(p, a) && a in p.baf.arguments
    ensures At(p.Sweep(x), a) == At(p.base, a)
  {
    NoneIncoming(p.baf.arguments, p.baf.supports, a);
    NoneIncoming(p.baf.arguments, p.baf.attacks, a);
    hide Incoming;
    assert Contributions([], x) == [];
    assert BalancedAt(p.sem, At(p.base, a), []);
    hide LawfulSemantics, Contributions;
  }

  lemma {:induction false} EqualReasons(p: Problem, edges: seq<Edge>, x: Strengths, h: ArgId, c: real)
    requires AllWeigh(p.baf.arguments, edges, x, h, c)
    ensures var n := Reasons(p.baf.arguments, edges, h);
            && Doubt(p.baf.arguments, edges, x, h) == Pow(1.0 - c, n)
            && Mass(p.baf.arguments, edges, x, h) == Scaled(n as real, c)
  {
    hide Reason, Weight, Scaled, Pow;
    var arguments := p.baf.arguments;
    if edges == [] {
      PowStep(1.0 - c, 0);
      ScaledZero(c);
    } else {
      var front, e := edges[..|edges| - 1], edges[|edges| - 1];
      assert edges == front + [e];
      EqualReasons(p, front, x, h, c);
      var n := Reasons(arguments, front, h);
      PowStep(1.0 - c, n);
      Splits(n as real, 1.0, c);
      Commutes(Pow(1.0 - c, n), 1.0 - c);
      SameDoubt(Pow(1.0 - c, n));
      Commutes(1.0, c);
      SameDoubt(c);
    }
  }

  ghost predicate AllWeigh(arguments: set<ArgId>, edges: seq<Edge>, x: Strengths, h: ArgId, c: real) {
    forall e :: e in edges && Reason(arguments, e, h) ==> Weight(e, x) == c
  }

  lemma Commutes(x: real, y: real)
    ensures Scaled(x, y) == Scaled(y, x)
  {
  }

  lemma WeightStays(p: Problem, kappa: real, edges: seq<Edge>, h: ArgId, c: real, k: nat)
    requires LawfulSemantics(p.sem, kappa) && LeafReasons(p, edges, h, c)
    ensures AllWeigh(p.baf.arguments, edges, p.Iterate(k), h, c)
  {
    hide LawfulSemantics, p.Iterate, Leaf, Weight;
    forall e | e in edges && Reason(p.baf.arguments, e, h)
      ensures Weight(e, p.Iterate(k)) == c
    {
      LeafStays(p, kappa, e.src, k);
      SameWeight(e, p.Iterate(k), p.base);
    }
  }

  lemma SameWeight(e: Edge, x: Strengths, y: Strengths)
    requires At(x, e.src) == At(y, e.src)
    ensures Weight(e, x) == Weight(e, y)
  {
  }

  /** A framework where `h` is argued for or against by leaves of weight `c` alone. */
  ghost predicate Fan(p: Problem, h: ArgId, c: real) {
    && p.Checked() && h in p.baf.arguments && 0.0 <= c <= 1.0
    && LeafReasons(p, p.baf.supports, h, c) && LeafReasons(p, p.baf.attacks, h, c)
  }

  ghost function For(p: Problem, h: ArgId): nat {
    Reasons(p.baf.arguments, p.baf.supports, h)
  }

  ghost function Against(p: Problem, h: ArgId): nat {
    Reasons(p.baf.arguments, p.baf.attacks, h)
  }

  /** The sweep the outcome stops at reads leaf reasons at their weight. */
  lemma LastSweep(p: Problem, h: ArgId, c: real, maxIterations: nat, tolerance: real, r: Outcome)
    returns (x: Strengths)
    requires (p.sem == DF_QUAD || p.sem == QUADRATIC_ENERGY) && Fan(p, h, c)
    requires maxIterations >= 1 && Solves(p, maxIterations, tolerance, r)
    ensures r.Solved? && r.acceptability == p.Sweep(x)
    ensures AllWeigh(p.baf.arguments, p.baf.supports, x, h, c) && AllWeigh(p.baf.arguments, p.baf.attacks, x, h, c)
  {
    hide *;
    FanIs(p, h, c);
    SolvesMeans(p, maxIterations, tolerance, r);
    var k := r.iterations - 1;
    x := p.Iterate(k);
    IterateUnfolds(p, k);
    var kappa := ShippedIsLawful(p.sem);
    WeightStays(p, kappa, p.baf.supports, h, c, k);
    WeightStays(p, kappa, p.baf.attacks, h, c, k);
  }

  lemma ShippedIsLawful(sem: Semantics) returns (kappa: real)
    requires sem == DF_QUAD || sem == QUADRATIC_ENERGY
    ensures LawfulSemantics(sem, kappa)
  {
    kappa := if sem == DF_QUAD then 1.0 else 0.75;
    DfQuadIsLawful();
    QuadraticEnergyIsLawful();
    hide LawfulSemantics;
  }

  /** DF-QuAD, at every bound and tolerance: n supporters of weight c shrink what the hypothesis
      lacks by (1 - c)^n, n attackers what it has. */
  lemma FanUnderDfQuad(p: Problem, h: ArgId, c: real, maxIterations: nat, tolerance: real, r: Outcome)
    requires p.sem == DF_QUAD && Fan(p, h, c) && maxIterations >= 1 && Solves(p, maxIterations, tolerance, r)
    ensures r.Solved?
    ensures Against(p, h) == 0 ==> 1.0 - At(r.acceptability, h) == Scaled(1.0 - At(p.base, h), Pow(1.0 - c, For(p, h)))
    ensures For(p, h) == 0 ==> At(r.acceptability, h) == Scaled(At(p.base, h), Pow(1.0 - c, Against(p, h)))
  {
    hide *;
    FanIs(p, h, c);
    var x := LastSweep(p, h, c, maxIterations, tolerance, r);
    SweepOfDfQuad(p, x, h, c);
  }

  lemma SweepOfDfQuad(p: Problem, x: Strengths, h: ArgId, c: real)
    requires p.sem == DF_QUAD && 0.0 <= c <= 1.0 && h in p.baf.arguments
    requires AllWeigh(p.baf.arguments, p.baf.supports, x, h, c) && AllWeigh(p.baf.arguments, p.baf.attacks, x, h, c)
    ensures Against(p, h) == 0 ==> 1.0 - At(p.Sweep(x), h) == Scaled(1.0 - At(p.base, h), Pow(1.0 - c, For(p, h)))
    ensures For(p, h) == 0 ==> At(p.Sweep(x), h) == Scaled(At(p.base, h), Pow(1.0 - c, Against(p, h)))
  {
    hide AllWeigh, Doubt, Reasons, Pow, p.Sweep, Scaled;
    EqualReasons(p, p.baf.supports, x, h, c);
    EqualReasons(p, p.baf.attacks, x, h, c);
    WeighsDfQuad(p, x, h);
    PowFalls(1.0 - c, 0, For(p, h));
    PowFalls(1.0 - c, 0, Against(p, h));
    PowStep(1.0 - c, 0);
  }

  /** Quadratic Energy: they shrink it by 1 + (n * c)^2. */
  lemma FanUnderQuadraticEnergy(p: Problem, h: ArgId, c: real, maxIterations: nat, tolerance: real, r: Outcome)
    requires p.sem == QUADRATIC_ENERGY && Fan(p, h, c) && maxIterations >= 1 && Solves(p, maxIterations, tolerance, r)
    ensures r.Solved?
    ensures Against(p, h) == 0 ==>
              Scaled(1.0 - At(r.acceptability, h), Damping(For(p, h), c)) == 1.0 - At(p.base, h)
    ensures For(p, h) == 0 ==>
              Scaled(At(r.acceptability, h), Damping(Against(p, h), c)) == At(p.base, h)
  {
    hide *;
    FanIs(p, h, c);
    var x := LastSweep(p, h, c, maxIterations, tolerance, r);
    SweepOfQuadraticEnergy(p, x, h, c);
  }

  lemma SweepOfQuadraticEnergy(p: Problem, x: Strengths, h: ArgId, c: real)
    requires p.sem == QUADRATIC_ENERGY && 0.0 <= c <= 1.0 && h in p.baf.arguments
    requires AllWeigh(p.baf.arguments, p.baf.supports, x, h, c) && AllWeigh(p.baf.arguments, p.baf.attacks, x, h, c)
    ensures Against(p, h) == 0 ==>
              Scaled(1.0 - At(p.Sweep(x), h), Damping(For(p, h), c)) == 1.0 - At(p.base, h)
    ensures For(p, h) == 0 ==>
              Scaled(At(p.Sweep(x), h), Damping(Against(p, h), c)) == At(p.base, h)
  {
    hide AllWeigh, Mass, Reasons, p.Sweep, Scaled, OnePlusSquare;
    EqualReasons(p, p.baf.supports, x, h, c);
    EqualReasons(p, p.baf.attacks, x, h, c);
    WeighsQuadraticEnergy(p, x, h);
    MassOf(For(p, h), c);
    MassOf(Against(p, h), c);
  }

  lemma FanIs(p: Problem, h: ArgId, c: real)
    requires Fan(p, h, c)
    ensures p.Checked() && 0.0 <= c <= 1.0 && h in p.baf.arguments
    ensures LeafReasons(p, p.baf.supports, h, c) && LeafReasons(p, p.baf.attacks, h, c)
    ensures For(p, h) == Reasons(p.baf.arguments, p.baf.supports, h)
    ensures Against(p, h) == Reasons(p.baf.arguments, p.baf.attacks, h)
  {
  }

  /** One plus the square of what `n` reasons of weight `c` add up to. */
  ghost function Damping(n: nat, c: real): real {
    OnePlusSquare(Scaled(n as real, c))
  }

  ghost function OnePlusSquare(x: real): real {
    1.0 + x * x
  }

  lemma MassOf(n: nat, c: real)
    requires c >= 0.0
    ensures Scaled(n as real, c) >= 0.0 && Scaled(0 as real, c) == 0.0
    ensures OnePlusSquare(-Scaled(n as real, c)) == OnePlusSquare(Scaled(n as real, c))
  {
    NonNegative(n as real, c);
    var m := Scaled(n as real, c);
    assert -m * -m == m * m;
  }

  // ---------------------------------------------------------------- strong reasons against many

  /** `h` has `n` supporters, leaves of weight `c`, and nothing against it. */
  ghost predicate Supported(baf: Baf, base: Strengths, h: ArgId, n: nat, c: real) {
    var p := Problem(baf, base, DF_QUAD);
    Fan(p, h, c) && For(p, h) == n && Against(p, h) == 0
  }

  /** The choice of semantics: of two hypotheses at one base score, DF-QuAD ranks first the one whose
      supporters leave less doubt, Quadratic Energy the one whose supporters add up to more. */
  lemma SemanticsRank(baf: Baf, base: Strengths, h: ArgId, n: nat, c: real, k: ArgId, m: nat, d: real,
                      maxIterations: nat, tolerance: real, df: Outcome, qe: Outcome)
    requires Supported(baf, base, h, n, c) && Supported(baf, base, k, m, d)
    requires At(base, h) == At(base, k) < 1.0 && maxIterations >= 1
    requires Solves(Problem(baf, base, DF_QUAD), maxIterations, tolerance, df)
    requires Solves(Problem(baf, base, QUADRATIC_ENERGY), maxIterations, tolerance, qe)
    ensures df.Solved? && qe.Solved?
    ensures At(df.acceptability, h) > At(df.acceptability, k) <==> Pow(1.0 - c, n) < Pow(1.0 - d, m)
    ensures At(qe.acceptability, h) > At(qe.acceptability, k) <==> n as real * c > m as real * d
  {
    hide *;
    var p, q := Problem(baf, base, DF_QUAD), Problem(baf, base, QUADRATIC_ENERGY);
    SupportedMeans(baf, base, h, n, c);
    SupportedMeans(baf, base, k, m, d);
    FanUnderDfQuad(p, h, c, maxIterations, tolerance, df);
    FanUnderDfQuad(p, k, d, maxIterations, tolerance, df);
    FanUnderQuadraticEnergy(q, h, c, maxIterations, tolerance, qe);
    FanUnderQuadraticEnergy(q, k, d, maxIterations, tolerance, qe);
    LessDoubtWins(1.0 - At(base, h), At(df.acceptability, h), At(df.acceptability, k), Pow(1.0 - c, n), Pow(1.0 - d, m));
    MoreMassWins(1.0 - At(base, h), At(qe.acceptability, h), At(qe.acceptability, k), n, c, m, d);
  }

  lemma SupportedMeans(baf: Baf, base: Strengths, h: ArgId, n: nat, c: real)
    requires Supported(baf, base, h, n, c)
    ensures 0.0 <= c
    ensures forall sem {:trigger Problem(baf, base, sem)} :: var p := Problem(baf, base, sem);
              Fan(p, h, c) && For(p, h) == n && Against(p, h) == 0
  {
    forall sem
      ensures Fan(Problem(baf, base, sem), h, c)
    {
      var p, q := Problem(baf, base, sem), Problem(baf, base, DF_QUAD);
      assert forall a :: Leaf(q, a) ==> Leaf(p, a);
    }
  }

  lemma LessDoubtWins(lack: real, v: real, w: real, x: real, y: real)
    requires lack > 0.0 && 1.0 - v == Scaled(lack, x) && 1.0 - w == Scaled(lack, y)
    ensures v > w <==> x < y
  {
    if x < y {
      PositiveProduct(lack, y - x);
    } else {
      NonNegative(lack, x - y);
    }
    assert lack * (y - x) == lack * y - lack * x == -(lack * (x - y));
  }

  lemma MoreMassWins(lack: real, v: real, w: real, n: nat, c: real, m: nat, d: real)
    requires lack > 0.0 && c >= 0.0 && d >= 0.0
    requires Scaled(1.0 - v, Damping(n, c)) == lack && Scaled(1.0 - w, Damping(m, d)) == lack
    ensures v > w <==> n as real * c > m as real * d
  {
    NonNegative(n as real, c);
    NonNegative(m as real, d);
    var x, y := n as real * c, m as real * d;
    if x > y {
      SquareGrows(y, x);
      MoreDamping(lack, 1.0 - v, 1.0 - w, Damping(n, c), Damping(m, d));
    } else if x < y {
      SquareGrows(x, y);
      MoreDamping(lack, 1.0 - w, 1.0 - v, Damping(m, d), Damping(n, c));
    } else {
      SameDamping(1.0 - v, 1.0 - w, Damping(n, c));
    }
  }

  lemma SquareGrows(x: real, y: real)
    requires 0.0 <= x < y
    ensures 1.0 <= OnePlusSquare(x) < OnePlusSquare(y)
  {
    NonNegative(x, x);
    PositiveProduct(y - x, y + x);
    assert (y - x) * (y + x) == y * y - x * x;
  }

  lemma MoreDamping(lack: real, x: real, y: real, dx: real, dy: real)
    requires lack > 0.0 && 1.0 <= dy < dx && Scaled(x, dx) == lack == Scaled(y, dy)
    ensures x < y
  {
    PositiveFactor(y, dy);
    PositiveProduct(y, dx - dy);
    assert (y - x) * dx == y * (dx - dy) + (y * dy - x * dx);
    PositiveFactor(y - x, dx);
  }

  lemma PositiveFactor(x: real, d: real)
    requires d > 0.0 && x * d > 0.0
    ensures x > 0.0
  {
    if x <= 0.0 {
      NonNegative(-x, d);
    }
  }

  lemma SameDamping(x: real, y: real, d: real)
    requires 1.0 <= d && Scaled(x, d) == Scaled(y, d)
    ensures x == y
  {
    assert (x - y) * d == 0.0;
  }
}
