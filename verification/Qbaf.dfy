/**
 The adjudication engine of src/iknos/core/qbaf.py: a bipolar argumentation framework is
 iterated under a gradual semantics until no strength moves by more than a tolerance, or a
 bound is hit.

 This file is the engine and its specification. The dynamics are in QbafDynamics.dfy.
 */
module Qbaf {
  import opened Confidence
  import opened GradualSemantics

  datatype ArgId = ArgId(rank: int)

  datatype Edge = Edge(src: ArgId, dst: ArgId, strength: real)

  datatype Baf = Baf(arguments: set<ArgId>, supports: seq<Edge>, attacks: seq<Edge>)

  type Strengths = map<ArgId, real>

  function At(sigma: Strengths, a: ArgId): real {
    if a in sigma then sigma[a] else 0.0
  }

  predicate Live(arguments: set<ArgId>, e: Edge) {
    e.src in arguments && e.dst in arguments
  }

  /** The live edges into `a`, in order. A dangling edge is ignored. */
  function Incoming(arguments: set<ArgId>, edges: seq<Edge>, a: ArgId): seq<Edge> {
    if edges == [] then []
    else
      var before, e := Incoming(arguments, edges[..|edges| - 1], a), edges[|edges| - 1];
      if Live(arguments, e) && e.dst == a then before + [e] else before
  }

  /** One edge lends its strength, scaled by its source's. */
  function Lent(e: Edge, sigma: Strengths): real {
    e.strength * At(sigma, e.src)
  }

  function Contributions(edges: seq<Edge>, sigma: Strengths): seq<real> {
    seq(|edges|, i requires 0 <= i < |edges| => Lent(edges[i], sigma))
  }

  ghost predicate InRange(edges: seq<Edge>) {
    forall i :: 0 <= i < |edges| ==> Unit(edges[i].strength)
  }

  /** A framework with the base scores and the semantics it is solved under. */
  datatype Problem = Problem(baf: Baf, base: Strengths, sem: Semantics) {

    ghost predicate Checked() {
      && (forall a :: a in base ==> Unit(base[a]))
      && InRange(baf.supports) && InRange(baf.attacks)
    }

    function Supporters(a: ArgId): seq<Edge> {
      Incoming(baf.arguments, baf.supports, a)
    }

    function Attackers(a: ArgId): seq<Edge> {
      Incoming(baf.arguments, baf.attacks, a)
    }

    function Update(sigma: Strengths, a: ArgId): real {
      sem.combine(At(base, a), sem.aggregate(Contributions(Supporters(a), sigma)),
                  sem.aggregate(Contributions(Attackers(a), sigma)))
    }

    /** One synchronous sweep. */
    function Sweep(sigma: Strengths): Strengths {
      map a | a in baf.arguments :: Update(sigma, a)
    }

    function Seed(): Strengths {
      map a | a in baf.arguments :: At(base, a)
    }

    function Iterate(k: nat): (sigma: Strengths)
      ensures sigma.Keys == baf.arguments
    {
      if k == 0 then Seed() else Sweep(Iterate(k - 1))
    }
  }

  /** No argument differs by more than `delta`. */
  ghost predicate Near(arguments: set<ArgId>, x: Strengths, y: Strengths, delta: real) {
    forall a :: a in arguments ==> Abs(At(x, a) - At(y, a)) <= delta
  }

  /** The stopping test passes at sweep `i`. */
  ghost predicate SettlesAt(p: Problem, tolerance: real, i: nat)
    requires i > 0
  {
    0.0 <= tolerance && Near(p.baf.arguments, p.Iterate(i), p.Iterate(i - 1), tolerance)
  }

  /** The arguments sweep `i` still moves. */
  ghost function MovingAt(p: Problem, tolerance: real, i: nat): set<ArgId>
    requires i > 0
  {
    set a | a in p.baf.arguments && Abs(At(p.Iterate(i), a) - At(p.Iterate(i - 1), a)) > tolerance
  }

  datatype Outcome =
    | Solved(acceptability: Strengths, converged: bool, iterations: nat, unstable: set<ArgId>)
    | ValueError

  /** What `solve` promises: the first sweep that passes the stopping test, or, if none does
      within the bound, the last one with the arguments the next sweep would still move. */
  ghost predicate Solves(p: Problem, maxIterations: int, tolerance: real, r: Outcome) {
    if maxIterations < 1 || !p.Checked() then r == ValueError
    else
      && r.Solved? && 1 <= r.iterations <= maxIterations
      && r.acceptability == p.Iterate(r.iterations)
      && (forall j :: 1 <= j < r.iterations ==> !SettlesAt(p, tolerance, j))
      && (r.converged <==> SettlesAt(p, tolerance, r.iterations))
      && (r.converged ==> r.unstable == {})
      && (!r.converged ==> r.iterations == maxIterations && r.unstable == MovingAt(p, tolerance, maxIterations + 1))
  }

  /** The two indices of the contribution wiring. Every edge is range-checked, dangling or not. */
  method IncomingIndex(arguments: set<ArgId>, edges: seq<Edge>) returns (ok: bool, byDst: map<ArgId, seq<Edge>>)
    ensures ok <==> InRange(edges)
    ensures ok ==> byDst.Keys == arguments && forall a :: a in arguments ==> byDst[a] == Incoming(arguments, edges, a)
  {
    byDst := map a | a in arguments :: [];
    for i := 0 to |edges|
      invariant InRange(edges[..i])
      invariant byDst.Keys == arguments
      invariant forall a :: a in arguments ==> byDst[a] == Incoming(arguments, edges[..i], a)
    {
      var e := edges[i];
      assert edges[..i + 1][..i] == edges[..i];
      if !Unit(e.strength) {
        return false, byDst;
      }
      if Live(arguments, e) {
        byDst := byDst[e.dst := byDst[e.dst] + [e]];
      }
    }
    assert edges[..|edges|] == edges;
    ok := true;
  }

  method CheckBase(base: Strengths) returns (ok: bool)
    ensures ok <==> forall a :: a in base ==> Unit(base[a])
  {
    var todo := base.Keys;
    while todo != {}
      invariant todo <= base.Keys
      invariant forall a :: a in base && a !in todo ==> Unit(base[a])
      decreases todo
    {
      var a :| a in todo;
      if !Unit(base[a]) {
        return false;
      }
      todo := todo - {a};
    }
    ok := true;
  }

  method SweepOnce(p: Problem, inSupport: map<ArgId, seq<Edge>>, inAttack: map<ArgId, seq<Edge>>, prev: Strengths)
    returns (next: Strengths)
    requires inSupport.Keys == inAttack.Keys == p.baf.arguments
    requires forall a :: a in p.baf.arguments ==> inSupport[a] == p.Supporters(a) && inAttack[a] == p.Attackers(a)
    ensures next == p.Sweep(prev)
  {
    next := map[];
    var todo := p.baf.arguments;
    while todo != {}
      invariant todo <= p.baf.arguments && next.Keys == p.baf.arguments - todo
      invariant forall a :: a in next ==> next[a] == p.Update(prev, a)
      decreases todo
    {
      var a :| a in todo;
      todo := todo - {a};
      var support := p.sem.aggregate(Contributions(inSupport[a], prev));
      var attack := p.sem.aggregate(Contributions(inAttack[a], prev));
      next := next[a := p.sem.combine(At(p.base, a), support, attack)];
    }
  }

  /** The largest change over all arguments, zero if there are none. */
  method LargestChange(arguments: set<ArgId>, x: Strengths, y: Strengths) returns (delta: real)
    ensures delta >= 0.0 && Near(arguments, x, y, delta)
    ensures delta == 0.0 || exists a :: a in arguments && Abs(At(x, a) - At(y, a)) == delta
  {
    delta := 0.0;
    var todo := arguments;
    while todo != {}
      invariant todo <= arguments && delta >= 0.0 && Near(arguments - todo, x, y, delta)
      invariant delta == 0.0 || exists a :: a in arguments && Abs(At(x, a) - At(y, a)) == delta
      decreases todo
    {
      var a :| a in todo;
      todo := todo - {a};
      var change := Abs(At(x, a) - At(y, a));
      if change > delta {
        delta := change;
      }
    }
  }

  lemma CheckedMeans(p: Problem)
    ensures p.Checked()
         <==> (forall a :: a in p.base ==> Unit(p.base[a])) && InRange(p.baf.supports) && InRange(p.baf.attacks)
  {
  }

  /** The largest change decides the stopping test. */
  lemma DeltaDecides(p: Problem, tolerance: real, i: nat, delta: real)
    requires delta >= 0.0 && Near(p.baf.arguments, p.Iterate(i + 1), p.Iterate(i), delta)
    requires delta == 0.0
          || exists a :: a in p.baf.arguments && Abs(At(p.Iterate(i + 1), a) - At(p.Iterate(i), a)) == delta
    ensures SettlesAt(p, tolerance, i + 1) <==> delta <= tolerance
  {
    hide p.Iterate;
  }

  lemma StopsAt(p: Problem, maxIterations: int, tolerance: real, i: nat)
    requires p.Checked() && 1 <= i <= maxIterations && SettlesAt(p, tolerance, i)
    requires forall j :: 1 <= j < i ==> !SettlesAt(p, tolerance, j)
    ensures Solves(p, maxIterations, tolerance, Solved(p.Iterate(i), true, i, {}))
  {
    hide p.Iterate, SettlesAt, p.Checked;
  }

  lemma HitsTheBound(p: Problem, maxIterations: nat, tolerance: real)
    requires p.Checked() && maxIterations >= 1
    requires forall j :: 1 <= j <= maxIterations ==> !SettlesAt(p, tolerance, j)
    ensures Solves(p, maxIterations, tolerance,
                   Solved(p.Iterate(maxIterations), false, maxIterations, MovingAt(p, tolerance, maxIterations + 1)))
  {
    hide p.Iterate, SettlesAt, p.Checked;
  }

  lemma Refuses(p: Problem, maxIterations: int, tolerance: real)
    requires maxIterations < 1 || !p.Checked()
    ensures Solves(p, maxIterations, tolerance, ValueError)
  {
  }

  lemma MovingMeans(p: Problem, tolerance: real, i: nat)
    ensures MovingAt(p, tolerance, i + 1)
         == set a | a in p.baf.arguments && Abs(At(p.Iterate(i + 1), a) - At(p.Iterate(i), a)) > tolerance
  {
    hide p.Iterate;
  }

  method Solve(p: Problem, maxIterations: int, tolerance: real) returns (r: Outcome)
    ensures Solves(p, maxIterations, tolerance, r)
  {
    hide *;
    if maxIterations < 1 {
      Refuses(p, maxIterations, tolerance);
      return ValueError;
    }
    var baseOk := CheckBase(p.base);
    var supportOk, inSupport := IncomingIndex(p.baf.arguments, p.baf.supports);
    var attackOk, inAttack := IncomingIndex(p.baf.arguments, p.baf.attacks);
    CheckedMeans(p);
    if !baseOk || !supportOk || !attackOk {
      Refuses(p, maxIterations, tolerance);
      return ValueError;
    }
    var sigma := p.Seed();
    IterateUnfolds(p, 0);
    WiringMeans(p);
    for i := 0 to maxIterations
      invariant sigma == p.Iterate(i)
      invariant forall j :: 1 <= j <= i ==> !SettlesAt(p, tolerance, j)
    {
      var next := SweepOnce(p, inSupport, inAttack, sigma);
      IterateUnfolds(p, i);
      var delta := LargestChange(p.baf.arguments, next, sigma);
      DeltaDecides(p, tolerance, i, delta);
      sigma := next;
      if delta <= tolerance {
        StopsAt(p, maxIterations, tolerance, i + 1);
        return Solved(sigma, true, i + 1, {});
      }
    }
    var last := SweepOnce(p, inSupport, inAttack, sigma);
    IterateUnfolds(p, maxIterations);
    var unstable := set a | a in p.baf.arguments && Abs(At(last, a) - At(sigma, a)) > tolerance;
    MovingMeans(p, tolerance, maxIterations);
    HitsTheBound(p, maxIterations, tolerance);
    r := Solved(sigma, false, maxIterations, unstable);
  }

  lemma WiringMeans(p: Problem)
    ensures forall a :: p.Supporters(a) == Incoming(p.baf.arguments, p.baf.supports, a)
    ensures forall a :: p.Attackers(a) == Incoming(p.baf.arguments, p.baf.attacks, a)
  {
  }

  lemma IterateUnfolds(p: Problem, k: nat)
    ensures p.Iterate(0) == p.Seed() && p.Iterate(k + 1) == p.Sweep(p.Iterate(k))
  {
  }

  ghost function Aggregates(p: Problem, strengths: Strengths, a: ArgId): (real, real) {
    (p.sem.aggregate(Contributions(p.Supporters(a), strengths)),
     p.sem.aggregate(Contributions(p.Attackers(a), strengths)))
  }

  /** The aggregates the state read-off compares, at given strengths; a source without one
      contributes nothing. */
  method AggregateEvidence(p: Problem, strengths: Strengths) returns (ok: bool, out: map<ArgId, (real, real)>)
    ensures ok <==> InRange(p.baf.supports) && InRange(p.baf.attacks)
    ensures ok ==> out.Keys == p.baf.arguments && forall a :: a in out ==> out[a] == Aggregates(p, strengths, a)
  {
    var supportOk, inSupport := IncomingIndex(p.baf.arguments, p.baf.supports);
    var attackOk, inAttack := IncomingIndex(p.baf.arguments, p.baf.attacks);
    out := map[];
    ok := supportOk && attackOk;
    if ok {
      var todo := p.baf.arguments;
      while todo != {}
        invariant todo <= p.baf.arguments && out.Keys == p.baf.arguments - todo
        invariant forall a :: a in out ==> out[a] == Aggregates(p, strengths, a)
        decreases todo
      {
        var a :| a in todo;
        todo := todo - {a};
        out := out[a := (p.sem.aggregate(Contributions(inSupport[a], strengths)),
                         p.sem.aggregate(Contributions(inAttack[a], strengths)))];
      }
    }
  }

  /** An unresolved outcome names no region exactly when one more sweep would have settled it. */
  lemma RegionIsEmptyWhenNextSweepSettles(p: Problem, maxIterations: int, tolerance: real, r: Outcome, more: Outcome)
    requires Solves(p, maxIterations, tolerance, r) && r.Solved? && !r.converged && 0.0 <= tolerance
    requires Solves(p, maxIterations + 1, tolerance, more)
    ensures r.unstable == {} <==> more.converged
  {
    hide p.Iterate;
    assert forall j :: 1 <= j <= maxIterations ==> !SettlesAt(p, tolerance, j);
    assert more.iterations == maxIterations + 1;
    if r.unstable != {} {
      var a :| a in r.unstable;
      assert Abs(At(p.Iterate(maxIterations + 1), a) - At(p.Iterate(maxIterations), a)) > tolerance;
    } else {
      forall a | a in p.baf.arguments
        ensures Abs(At(p.Iterate(maxIterations + 1), a) - At(p.Iterate(maxIterations), a)) <= tolerance
      {
        assert a !in r.unstable;
      }
    }
  }
}
