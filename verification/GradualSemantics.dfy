/**
 The gradual semantics of src/iknos/core/qbaf.py: DF-QuAD and Quadratic Energy as values, and
 the laws the solver relies on. `DfQuadIsLawful` and `QuadraticEnergyIsLawful` give each its
 Lipschitz constant, 1 and 3/4: the number that decides whether a cycle contracts.
 */
module GradualSemantics {
  import opened Sets
  import opened Confidence

  function Abs(x: real): real {
    if x < 0.0 then -x else x
  }

  /** Strengths are floats in the program; the model takes them as reals. */
  datatype Semantics = Semantics(aggregate: seq<real> -> real, combine: (real, real, real) -> real)

  /** The probabilistic sum of two degrees. */
  function OneOrOther(p: real, c: real): real {
    p + c - p * c
  }

  function ProbSumOf(cs: seq<real>): real {
    if cs == [] then 0.0 else OneOrOther(ProbSumOf(cs[..|cs| - 1]), cs[|cs| - 1])
  }

  function DfQuadCombine(base: real, support: real, attack: real): real {
    if support > attack then base + (1.0 - base) * (support - attack)
    else if attack > support then base - base * (attack - support)
    else base
  }

  function PlainSumOf(cs: seq<real>): real {
    if cs == [] then 0.0 else PlainSumOf(cs[..|cs| - 1]) + cs[|cs| - 1]
  }

  function Phi(x: real): real {
    var sq := x * x;
    assert sq >= 0.0;
    sq / (1.0 + sq)
  }

  function QuadraticEnergyCombine(base: real, support: real, attack: real): real {
    var energy := support - attack;
    if energy >= 0.0 then base + (1.0 - base) * Phi(energy) else base - base * Phi(-energy)
  }

  const DF_QUAD := Semantics(ProbSumOf, DfQuadCombine)

  const QUADRATIC_ENERGY := Semantics(PlainSumOf, QuadraticEnergyCombine)

  ghost predicate Units(cs: seq<real>) {
    forall i :: 0 <= i < |cs| ==> Unit(cs[i])
  }

  /** How far two lists of contributions lie apart. */
  ghost function Gap(cs: seq<real>, cs': seq<real>): real
    requires |cs| == |cs'|
  {
    if cs == [] then 0.0
    else
      var n := |cs| - 1;
      Gap(cs[..n], cs'[..n]) + Abs(cs[n] - cs'[n])
  }

  // ---------------------------------------------------------------- the laws

  ghost predicate ClosedAt(sem: Semantics, base: real, cs: seq<real>, ds: seq<real>) {
    Unit(sem.combine(base, sem.aggregate(cs), sem.aggregate(ds)))
  }

  ghost predicate BalancedAt(sem: Semantics, base: real, cs: seq<real>) {
    sem.combine(base, sem.aggregate(cs), sem.aggregate(cs)) == base
  }

  ghost predicate LipschitzAt(sem: Semantics, kappa: real, base: real, cs: seq<real>, cs': seq<real>,
                              ds: seq<real>, ds': seq<real>)
    requires |cs| == |cs'| && |ds| == |ds'|
  {
    Abs(sem.combine(base, sem.aggregate(cs), sem.aggregate(ds)) - sem.combine(base, sem.aggregate(cs'), sem.aggregate(ds')))
      <= kappa * (Gap(cs, cs') + Gap(ds, ds'))
  }

  ghost predicate SameAggregate(sem: Semantics, cs: seq<real>, cs': seq<real>) {
    sem.aggregate(cs) == sem.aggregate(cs')
  }

  /** One more supporter never lowers an argument. */
  ghost predicate RisesAt(sem: Semantics, base: real, cs: seq<real>, c: real, ds: seq<real>) {
    sem.combine(base, sem.aggregate(cs), sem.aggregate(ds))
      <= sem.combine(base, sem.aggregate(cs + [c]), sem.aggregate(ds))
  }

  ghost predicate Closed(sem: Semantics) {
    forall base, cs, ds {:trigger ClosedAt(sem, base, cs, ds)} | Unit(base) && Units(cs) && Units(ds) ::
      ClosedAt(sem, base, cs, ds)
  }

  ghost predicate Balanced(sem: Semantics) {
    forall base, cs {:trigger BalancedAt(sem, base, cs)} :: BalancedAt(sem, base, cs)
  }

  ghost predicate Lipschitz(sem: Semantics, kappa: real) {
    forall base, cs, cs', ds, ds' {:trigger LipschitzAt(sem, kappa, base, cs, cs', ds, ds')}
      | Unit(base) && |cs| == |cs'| && |ds| == |ds'| && Units(cs) && Units(cs') && Units(ds) && Units(ds') ::
      LipschitzAt(sem, kappa, base, cs, cs', ds, ds')
  }

  ghost predicate OrderFree(sem: Semantics) {
    forall cs, cs' {:trigger SameAggregate(sem, cs, cs')} | multiset(cs) == multiset(cs') :: SameAggregate(sem, cs, cs')
  }

  ghost predicate Rises(sem: Semantics) {
    forall base, cs, c, ds {:trigger RisesAt(sem, base, cs, c, ds)} | Unit(base) && Units(cs) && Unit(c) && Units(ds) ::
      RisesAt(sem, base, cs, c, ds)
  }

  /** What the solver asks of a semantics. `kappa` bounds its amplification. */
  ghost predicate LawfulSemantics(sem: Semantics, kappa: real) {
    kappa >= 0.0 && Closed(sem) && Balanced(sem) && Lipschitz(sem, kappa) && OrderFree(sem) && Rises(sem)
  }

  // ---------------------------------------------------------------- aggregation

  lemma NonNegative(x: real, y: real)
    requires x >= 0.0 && y >= 0.0
    ensures x * y >= 0.0
  {
  }

  lemma OneOrOtherInUnit(p: real, c: real)
    requires Unit(p) && Unit(c)
    ensures Unit(OneOrOther(p, c)) && p <= OneOrOther(p, c)
  {
    NonNegative(1.0 - p, 1.0 - c);
    NonNegative(1.0 - p, c);
    assert OneOrOther(p, c) == p + (1.0 - p) * c == 1.0 - (1.0 - p) * (1.0 - c);
  }

  lemma {:induction false} ProbSumInUnit(cs: seq<real>)
    requires Units(cs)
    ensures Unit(ProbSumOf(cs))
  {
    if cs != [] {
      ProbSumInUnit(cs[..|cs| - 1]);
      OneOrOtherInUnit(ProbSumOf(cs[..|cs| - 1]), cs[|cs| - 1]);
    }
  }

  lemma {:induction false} GapNonNegative(cs: seq<real>, cs': seq<real>)
    requires |cs| == |cs'|
    ensures Gap(cs, cs') >= 0.0
  {
    if cs != [] {
      GapNonNegative(cs[..|cs| - 1], cs'[..|cs| - 1]);
    }
  }

  lemma OneOrOtherMoves(p: real, c: real, p': real, c': real)
    requires Unit(c) && Unit(p')
    ensures Abs(OneOrOther(p, c) - OneOrOther(p', c')) <= Abs(p - p') + Abs(c - c')
  {
    hide OneOrOther, Abs;
    Telescopes(p, c, p', c');
    DampedSum(OneOrOther(p, c) - OneOrOther(p', c'), p - p', 1.0 - c, c - c', 1.0 - p');
  }

  lemma DampedSum(moved: real, x: real, f: real, y: real, g: real)
    requires Unit(f) && Unit(g) && moved == x * f + y * g
    ensures Abs(moved) <= Abs(x) + Abs(y)
  {
    Shrinks(x, f);
    Shrinks(y, g);
  }

  lemma Telescopes(p: real, c: real, p': real, c': real)
    ensures OneOrOther(p, c) - OneOrOther(p', c') == (p - p') * (1.0 - c) + (c - c') * (1.0 - p')
  {
    assert (p - p') * (1.0 - c) == p - p * c - p' + p' * c;
    assert (c - c') * (1.0 - p') == c - c * p' - c' + c' * p';
  }

  lemma Shrinks(x: real, f: real)
    requires Unit(f)
    ensures Abs(x * f) <= Abs(x)
    ensures x >= 0.0 ==> 0.0 <= x * f <= x
  {
    if x >= 0.0 {
      NonNegative(x, f);
      NonNegative(x, 1.0 - f);
    } else {
      NonNegative(-x, f);
      NonNegative(-x, 1.0 - f);
    }
  }

  lemma {:induction false} ProbSumLipschitz(cs: seq<real>, cs': seq<real>)
    requires |cs| == |cs'| && Units(cs) && Units(cs')
    ensures Abs(ProbSumOf(cs) - ProbSumOf(cs')) <= Gap(cs, cs')
  {
    hide OneOrOther;
    if cs != [] {
      var n := |cs| - 1;
      ProbSumLipschitz(cs[..n], cs'[..n]);
      ProbSumInUnit(cs'[..n]);
      OneOrOtherMoves(ProbSumOf(cs[..n]), cs[n], ProbSumOf(cs'[..n]), cs'[n]);
    }
  }

  lemma {:induction false} PlainSumLipschitz(cs: seq<real>, cs': seq<real>)
    requires |cs| == |cs'|
    ensures Abs(PlainSumOf(cs) - PlainSumOf(cs')) <= Gap(cs, cs')
  {
    if cs != [] {
      PlainSumLipschitz(cs[..|cs| - 1], cs'[..|cs| - 1]);
    }
  }

  lemma ProbSumAppend(cs: seq<real>, c: real)
    ensures ProbSumOf(cs + [c]) == OneOrOther(ProbSumOf(cs), c)
  {
    assert (cs + [c])[..|cs|] == cs;
  }

  lemma PlainSumAppend(cs: seq<real>, c: real)
    ensures PlainSumOf(cs + [c]) == PlainSumOf(cs) + c
  {
    assert (cs + [c])[..|cs|] == cs;
  }

  lemma ReasonsCommute(p: real, c: real, e: real)
    ensures OneOrOther(OneOrOther(p, c), e) == OneOrOther(OneOrOther(p, e), c)
  {
    assert (p + c - p * c) * e == p * e + c * e - p * c * e;
    assert (p + e - p * e) * c == p * c + e * c - p * e * c;
  }

  /** A contribution may be taken out and added last. */
  lemma {:induction false} ProbSumMoveLast(a: seq<real>, c: real, b: seq<real>)
    ensures ProbSumOf(a + [c] + b) == OneOrOther(ProbSumOf(a + b), c)
    decreases |b|
  {
    hide ProbSumOf, OneOrOther;
    if b == [] {
      assert a + [c] + b == a + [c] && a + b == a;
      ProbSumAppend(a, c);
    } else {
      var front, e := b[..|b| - 1], b[|b| - 1];
      assert a + [c] + b == (a + [c] + front) + [e] && a + b == (a + front) + [e];
      ProbSumMoveLast(a, c, front);
      ProbSumAppend(a + [c] + front, e);
      ProbSumAppend(a + front, e);
      ReasonsCommute(ProbSumOf(a + front), c, e);
    }
  }

  lemma {:induction false} PlainSumMoveLast(a: seq<real>, c: real, b: seq<real>)
    ensures PlainSumOf(a + [c] + b) == PlainSumOf(a + b) + c
    decreases |b|
  {
    hide PlainSumOf;
    if b == [] {
      assert a + [c] + b == a + [c] && a + b == a;
      PlainSumAppend(a, c);
    } else {
      var front, e := b[..|b| - 1], b[|b| - 1];
      assert a + [c] + b == (a + [c] + front) + [e] && a + b == (a + front) + [e];
      PlainSumMoveLast(a, c, front);
      PlainSumAppend(a + [c] + front, e);
      PlainSumAppend(a + front, e);
    }
  }

  lemma {:induction false} ProbSumAnyOrder(cs: seq<real>, cs': seq<real>)
    requires multiset(cs) == multiset(cs')
    ensures ProbSumOf(cs) == ProbSumOf(cs')
    decreases |cs'|
  {
    hide ProbSumOf, OneOrOther;
    if cs' == [] {
      assert |multiset(cs)| == |cs|;
    } else {
      var front, last := cs'[..|cs'| - 1], cs'[|cs'| - 1];
      assert cs' == front + [last];
      var a, b := FindLast(cs, front, last);
      ProbSumMoveLast(a, last, b);
      ProbSumAppend(front, last);
      ProbSumAnyOrder(a + b, front);
    }
  }

  lemma {:induction false} PlainSumAnyOrder(cs: seq<real>, cs': seq<real>)
    requires multiset(cs) == multiset(cs')
    ensures PlainSumOf(cs) == PlainSumOf(cs')
    decreases |cs'|
  {
    hide PlainSumOf;
    if cs' == [] {
      assert |multiset(cs)| == |cs|;
    } else {
      var front, last := cs'[..|cs'| - 1], cs'[|cs'| - 1];
      assert cs' == front + [last];
      var a, b := FindLast(cs, front, last);
      PlainSumMoveLast(a, last, b);
      PlainSumAppend(front, last);
      PlainSumAnyOrder(a + b, front);
    }
  }

  /** The chance that every contribution misses. */
  ghost function AllMiss(cs: seq<real>): real {
    if cs == [] then 1.0 else AllMiss(cs[..|cs| - 1]) * (1.0 - cs[|cs| - 1])
  }

  lemma {:induction false} ProbSumIsOneHit(cs: seq<real>)
    ensures ProbSumOf(cs) == 1.0 - AllMiss(cs)
  {
    if cs != [] {
      ProbSumIsOneHit(cs[..|cs| - 1]);
    }
  }

  /** "At least one independent reason holds." */
  method ProbSum(cs: seq<real>) returns (acc: real)
    ensures acc == ProbSumOf(cs) == 1.0 - AllMiss(cs)
  {
    acc := 0.0;
    for i := 0 to |cs|
      invariant acc == ProbSumOf(cs[..i])
    {
      assert cs[..i + 1][..i] == cs[..i];
      acc := acc + cs[i] - acc * cs[i];
    }
    assert cs[..|cs|] == cs;
    ProbSumIsOneHit(cs);
  }

  // ---------------------------------------------------------------- combination

  /** Net evidence moves the base toward one end: what both combinations do. */
  function Push(base: real, net: real): real {
    if net >= 0.0 then base + (1.0 - base) * net else base - base * -net
  }

  lemma PushInUnit(base: real, net: real)
    requires Unit(base) && -1.0 <= net <= 1.0
    ensures Unit(Push(base, net))
  {
    if net >= 0.0 {
      Shrinks(1.0 - base, net);
    } else {
      Shrinks(base, -net);
    }
  }

  lemma PushRises(base: real, net: real, net': real)
    requires Unit(base) && net <= net'
    ensures 0.0 <= Push(base, net') - Push(base, net) <= net' - net
  {
    if net >= 0.0 {
      Shrinks(net' - net, 1.0 - base);
      assert (1.0 - base) * net' - (1.0 - base) * net == (net' - net) * (1.0 - base);
    } else if net' < 0.0 {
      Shrinks(net' - net, base);
      assert base * -net - base * -net' == (net' - net) * base;
    } else {
      Shrinks(net', 1.0 - base);
      Shrinks(-net, base);
      assert (1.0 - base) * net' == net' * (1.0 - base) && base * -net == -net * base;
    }
  }

  lemma PushMoves(base: real, net: real, net': real)
    requires Unit(base)
    ensures Abs(Push(base, net) - Push(base, net')) <= Abs(net - net')
    ensures net <= net' ==> Push(base, net) <= Push(base, net')
  {
    if net > net' {
      PushRises(base, net', net);
    } else {
      PushRises(base, net, net');
    }
  }

  /** The squash of a signed energy. */
  function Squash(energy: real): real {
    if energy >= 0.0 then Phi(energy) else -Phi(-energy)
  }

  lemma PhiBounds(x: real)
    ensures 0.0 <= Phi(x) <= 1.0
    ensures Phi(x) * (1.0 + x * x) == x * x
  {
    var sq := x * x;
    assert sq >= 0.0;
  }

  lemma QuadraticEnergyIsPush(base: real, support: real, attack: real)
    ensures QuadraticEnergyCombine(base, support, attack) == Push(base, Squash(support - attack))
  {
    var energy := support - attack;
    PhiBounds(energy);
    PhiBounds(-energy);
  }

  /** The steepest the squash ever is lies below 3/4. */
  lemma PhiSlope(u: real, v: real)
    requires 0.0 <= v <= u
    ensures 0.0 <= Phi(u) - Phi(v) <= 0.75 * (u - v)
  {
    hide Phi;
    var a, b := 1.0 + u * u, 1.0 + v * v;
    PhiBounds(u);
    PhiBounds(v);
    NonNegative(u, u);
    NonNegative(v, v);
    SlopeBound(u, v);
    BoundedSlope(Phi(u) - Phi(v), u - v, u + v, a * b);
  }

  lemma BoundedSlope(rise: real, run: real, s: real, d: real)
    requires d > 0.0 && run >= 0.0 && 0.0 <= s <= 0.75 * d && rise * d == run * s
    ensures 0.0 <= rise <= 0.75 * run
  {
    NonNegative(run, s);
    NonNegative(run, 0.75 * d - s);
    Distributes(run, 0.75 * d, s);
  }

  lemma Distributes(x: real, y: real, z: real)
    ensures x * (y - z) == x * y - x * z
  {
  }

  lemma SlopeBound(u: real, v: real)
    requires 0.0 <= v <= u
    ensures u + v <= 0.75 * ((1.0 + u * u) * (1.0 + v * v))
  {
    NonNegative(u * u, v * v);
    assert (1.0 + u * u) * (1.0 + v * v) == 1.0 + u * u + v * v + (u * u) * (v * v);
    FarFromTangent(u);
    FarFromTangent(v);
  }

  lemma FarFromTangent(u: real)
    ensures u <= 0.375 + 0.75 * (u * u)
  {
    var w := u - 2.0 / 3.0;
    assert w * w >= 0.0;
    assert w * w == u * u - (4.0 / 3.0) * u + 4.0 / 9.0;
  }

  lemma SquashMoves(e: real, e': real)
    requires e <= e'
    ensures 0.0 <= Squash(e') - Squash(e) <= 0.75 * (e' - e)
    ensures -1.0 <= Squash(e) <= 1.0
  {
    hide Phi;
    PhiBounds(e);
    PhiBounds(-e);
    PhiBounds(0.0);
    if e >= 0.0 {
      PhiSlope(e', e);
    } else if e' < 0.0 {
      PhiSlope(-e, -e');
    } else {
      PhiSlope(e', 0.0);
      PhiSlope(-e, 0.0);
    }
  }

  // ---------------------------------------------------------------- the two instances

  lemma DfQuadIsPush(base: real, cs: seq<real>, ds: seq<real>)
    ensures DF_QUAD.combine(base, DF_QUAD.aggregate(cs), DF_QUAD.aggregate(ds))
         == Push(base, ProbSumOf(cs) - ProbSumOf(ds))
  {
    hide ProbSumOf;
  }

  lemma DfQuadAt(base: real, cs: seq<real>, cs': seq<real>, ds: seq<real>, ds': seq<real>)
    requires Unit(base) && |cs| == |cs'| && |ds| == |ds'| && Units(cs) && Units(cs') && Units(ds) && Units(ds')
    ensures LipschitzAt(DF_QUAD, 1.0, base, cs, cs', ds, ds') && ClosedAt(DF_QUAD, base, cs, ds)
  {
    hide Push, ProbSumOf, Gap, Units;
    ProbSumLipschitz(cs, cs');
    ProbSumLipschitz(ds, ds');
    ProbSumInUnit(cs);
    ProbSumInUnit(ds);
    DfQuadIsPush(base, cs, ds);
    DfQuadIsPush(base, cs', ds');
    PushMoves(base, ProbSumOf(cs) - ProbSumOf(ds), ProbSumOf(cs') - ProbSumOf(ds'));
    PushInUnit(base, ProbSumOf(cs) - ProbSumOf(ds));
  }

  lemma DfQuadRises(base: real, cs: seq<real>, c: real, ds: seq<real>)
    requires Unit(base) && Units(cs) && Unit(c)
    ensures RisesAt(DF_QUAD, base, cs, c, ds)
  {
    hide Push, ProbSumOf, Units, OneOrOther;
    ProbSumInUnit(cs);
    ProbSumAppend(cs, c);
    OneOrOtherInUnit(ProbSumOf(cs), c);
    DfQuadIsPush(base, cs, ds);
    DfQuadIsPush(base, cs + [c], ds);
    PushMoves(base, ProbSumOf(cs) - ProbSumOf(ds), ProbSumOf(cs + [c]) - ProbSumOf(ds));
  }

  lemma DfQuadIsLawful()
    ensures LawfulSemantics(DF_QUAD, 1.0)
  {
    hide ClosedAt, LipschitzAt, RisesAt, ProbSumOf, Gap;
    forall base, cs, ds | Unit(base) && Units(cs) && Units(ds)
      ensures ClosedAt(DF_QUAD, base, cs, ds)
    {
      DfQuadAt(base, cs, cs, ds, ds);
    }
    forall base, cs, cs', ds, ds'
      | Unit(base) && |cs| == |cs'| && |ds| == |ds'| && Units(cs) && Units(cs') && Units(ds) && Units(ds')
      ensures LipschitzAt(DF_QUAD, 1.0, base, cs, cs', ds, ds')
    {
      DfQuadAt(base, cs, cs', ds, ds');
    }
    forall base, cs, c, ds | Unit(base) && Units(cs) && Unit(c) && Units(ds)
      ensures RisesAt(DF_QUAD, base, cs, c, ds)
    {
      DfQuadRises(base, cs, c, ds);
    }
    forall cs, cs' | multiset(cs) == multiset(cs')
      ensures SameAggregate(DF_QUAD, cs, cs')
    {
      ProbSumAnyOrder(cs, cs');
    }
  }

  lemma QuadraticEnergyIs(base: real, cs: seq<real>, ds: seq<real>)
    ensures QUADRATIC_ENERGY.combine(base, QUADRATIC_ENERGY.aggregate(cs), QUADRATIC_ENERGY.aggregate(ds))
         == Push(base, Squash(PlainSumOf(cs) - PlainSumOf(ds)))
  {
    hide PlainSumOf, Squash, Push;
    QuadraticEnergyIsPush(base, PlainSumOf(cs), PlainSumOf(ds));
  }

  lemma QuadraticEnergyAt(base: real, cs: seq<real>, cs': seq<real>, ds: seq<real>, ds': seq<real>)
    requires Unit(base) && |cs| == |cs'| && |ds| == |ds'|
    ensures LipschitzAt(QUADRATIC_ENERGY, 0.75, base, cs, cs', ds, ds') && ClosedAt(QUADRATIC_ENERGY, base, cs, ds)
  {
    hide Push, PlainSumOf, Squash, Gap, Units;
    PlainSumLipschitz(cs, cs');
    PlainSumLipschitz(ds, ds');
    QuadraticEnergyIs(base, cs, ds);
    QuadraticEnergyIs(base, cs', ds');
    var e, e' := PlainSumOf(cs) - PlainSumOf(ds), PlainSumOf(cs') - PlainSumOf(ds');
    SquashLipschitz(e, e');
    PushMoves(base, Squash(e), Squash(e'));
    PushInUnit(base, Squash(e));
  }

  lemma SquashLipschitz(e: real, e': real)
    ensures Abs(Squash(e) - Squash(e')) <= 0.75 * Abs(e - e') && -1.0 <= Squash(e) <= 1.0
  {
    hide Squash;
    SquashMoves(e, e);
    if e <= e' {
      SquashMoves(e, e');
    } else {
      SquashMoves(e', e);
    }
  }

  lemma QuadraticEnergyRises(base: real, cs: seq<real>, c: real, ds: seq<real>)
    requires Unit(base) && Unit(c)
    ensures RisesAt(QUADRATIC_ENERGY, base, cs, c, ds)
  {
    hide Push, PlainSumOf, Squash;
    PlainSumAppend(cs, c);
    QuadraticEnergyIs(base, cs, ds);
    QuadraticEnergyIs(base, cs + [c], ds);
    SquashMoves(PlainSumOf(cs) - PlainSumOf(ds), PlainSumOf(cs + [c]) - PlainSumOf(ds));
    PushMoves(base, Squash(PlainSumOf(cs) - PlainSumOf(ds)), Squash(PlainSumOf(cs + [c]) - PlainSumOf(ds)));
  }

  lemma QuadraticEnergyIsLawful()
    ensures LawfulSemantics(QUADRATIC_ENERGY, 0.75)
  {
    hide ClosedAt, LipschitzAt, RisesAt, PlainSumOf, Gap;
    forall base, cs, ds | Unit(base) && Units(cs) && Units(ds)
      ensures ClosedAt(QUADRATIC_ENERGY, base, cs, ds)
    {
      QuadraticEnergyAt(base, cs, cs, ds, ds);
    }
    forall base, cs, cs', ds, ds'
      | Unit(base) && |cs| == |cs'| && |ds| == |ds'| && Units(cs) && Units(cs') && Units(ds) && Units(ds')
      ensures LipschitzAt(QUADRATIC_ENERGY, 0.75, base, cs, cs', ds, ds')
    {
      QuadraticEnergyAt(base, cs, cs', ds, ds');
    }
    forall base, cs, c, ds | Unit(base) && Units(cs) && Unit(c) && Units(ds)
      ensures RisesAt(QUADRATIC_ENERGY, base, cs, c, ds)
    {
      QuadraticEnergyRises(base, cs, c, ds);
    }
    forall cs, cs' | multiset(cs) == multiset(cs')
      ensures SameAggregate(QUADRATIC_ENERGY, cs, cs')
    {
      PlainSumAnyOrder(cs, cs');
    }
  }
}
