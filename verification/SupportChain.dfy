/**
 The solver on a chain of certain support steps: one certain source and d steps of full strength
 under DF-QuAD. Sweep i lifts argument i from zero to one and nothing else, so the chain needs
 every one of its d sweeps, and one more to notice.

 It shows that the bound in QbafAcyclic.dfy is the exact condition for the documented promise
 that an acyclic framework always converges: `SettlesExactlyBeyondDepth` by depth,
 `SettlesExactlyWithASweepEach` by the number of arguments.
 */
module SupportChain {
  import opened Confidence
  import opened GradualSemantics
  import opened Digraph
  import opened Qbaf
  import opened QbafAcyclic

  function ChainEdges(n: nat): seq<Edge> {
    seq(n, i requires 0 <= i < n => Edge(ArgId(i), ArgId(i + 1), 1.0))
  }

  function ChainArgs(d: nat): set<ArgId> {
    set i | 0 <= i <= d :: ArgId(i)
  }

  function Chain(d: nat): Problem {
    Problem(Baf(ChainArgs(d), ChainEdges(d), []), map[ArgId(0) := 1.0], DF_QUAD)
  }

  lemma InChain(d: nat, a: ArgId)
    ensures a in ChainArgs(d) <==> 0 <= a.rank <= d
  {
    assert a == ArgId(a.rank);
  }

  lemma {:induction false} ChainIncoming(d: nat, n: nat, a: ArgId)
    requires n <= d
    ensures Incoming(ChainArgs(d), ChainEdges(n), a)
         == if 1 <= a.rank <= n then [Edge(ArgId(a.rank - 1), a, 1.0)] else []
  {
    if n > 0 {
      ChainIncoming(d, n - 1, a);
      assert ChainEdges(n)[..n - 1] == ChainEdges(n - 1);
      InChain(d, ArgId(n - 1));
      InChain(d, ArgId(n));
    }
  }

  lemma ChainUpdate(d: nat, x: Strengths, a: ArgId)
    requires 0 <= a.rank <= d && (a.rank > 0 ==> Unit(At(x, ArgId(a.rank - 1))))
    ensures Chain(d).Update(x, a) == if a.rank == 0 then 1.0 else At(x, ArgId(a.rank - 1))
  {
    var p := Chain(d);
    ChainIncoming(d, d, a);
    assert p.Supporters(a) == if a.rank == 0 then [] else [Edge(ArgId(a.rank - 1), a, 1.0)];
    assert p.Attackers(a) == [];
    assert Contributions([], x) == [];
    if a.rank > 0 {
      OneLink(x, Edge(ArgId(a.rank - 1), a, 1.0));
    }
  }

  lemma OneLink(x: Strengths, e: Edge)
    requires e.strength == 1.0
    ensures ProbSumOf(Contributions([e], x)) == At(x, e.src)
  {
    var cs := Contributions([e], x);
    assert cs == [At(x, e.src)] && cs[..0] == [];
    assert ProbSumOf([]) == 0.0;
  }

  /** After k sweeps the first k steps are certain, and no other. */
  lemma {:induction false} ChainIterates(d: nat, k: nat, a: ArgId)
    requires 0 <= a.rank <= d
    ensures At(Chain(d).Iterate(k), a) == if a.rank <= k then 1.0 else 0.0
  {
    var p := Chain(d);
    hide Chain, p.Iterate;
    if k == 0 {
      ChainSeed(d, a);
    } else {
      if a.rank > 0 {
        ChainIterates(d, k - 1, ArgId(a.rank - 1));
      }
      ChainSweep(d, k - 1, a);
    }
  }

  lemma ChainSeed(d: nat, a: ArgId)
    requires 0 <= a.rank <= d
    ensures At(Chain(d).Iterate(0), a) == if a.rank == 0 then 1.0 else 0.0
  {
    InChain(d, a);
  }

  lemma ChainSweep(d: nat, k: nat, a: ArgId)
    requires 0 <= a.rank <= d && (a.rank > 0 ==> Unit(At(Chain(d).Iterate(k), ArgId(a.rank - 1))))
    ensures At(Chain(d).Iterate(k + 1), a) == if a.rank == 0 then 1.0 else At(Chain(d).Iterate(k), ArgId(a.rank - 1))
  {
    var p := Chain(d);
    InChain(d, a);
    IterateUnfolds(p, k);
    ChainUpdate(d, p.Iterate(k), a);
    hide p.Update;
    assert p.baf.arguments == ChainArgs(d);
    hide Chain;
  }

  // ---------------------------------------------------------------- the chain as a framework

  lemma ChainIsChecked(d: nat)
    ensures Chain(d).Checked() && Chain(d).sem == DF_QUAD && Chain(d).baf.arguments == ChainArgs(d)
  {
  }

  lemma ChainLink(d: nat, u: ArgId, v: ArgId)
    requires (u, v) in Links(Chain(d).baf)
    ensures 0 <= u.rank && v.rank == u.rank + 1 <= d
  {
    var e :| e in Chain(d).baf.supports + Chain(d).baf.attacks && Live(ChainArgs(d), e) && (e.src, e.dst) == (u, v);
    InChain(d, u);
    InChain(d, v);
  }

  lemma {:induction false} ChainWalk(d: nat, path: seq<ArgId>, i: nat)
    requires Walk(Links(Chain(d).baf), path) && i < |path|
    ensures path[i].rank == path[0].rank + i
    ensures |path| > 1 ==> path[0].rank >= 0 && path[i].rank <= d
  {
    hide Links, Chain;
    if i > 0 {
      ChainWalk(d, path, i - 1);
      ChainLink(d, path[i - 1], path[i]);
    } else if |path| > 1 {
      ChainLink(d, path[0], path[1]);
    }
  }

  lemma ChainDepth(d: nat)
    ensures DepthAtMost(Chain(d).baf, d) && Acyclic(Links(Chain(d).baf))
  {
    var links := Links(Chain(d).baf);
    forall a, k | d < k
      ensures !EndsWalk(links, a, k)
    {
      if path :| Walk(links, path) && |path| == k + 1 && path[k] == a {
        ChainWalk(d, path, k);
      }
    }
    forall u
      ensures !Reaches(links, u, u)
    {
      if path :| WalkFrom(links, path, u, u) && |path| > 1 {
        ChainWalk(d, path, |path| - 1);
      }
    }
  }

  lemma {:induction false} ChainSize(d: nat)
    ensures |ChainArgs(d)| == d + 1
  {
    if d > 0 {
      ChainSize(d - 1);
      assert ChainArgs(d) == ChainArgs(d - 1) + {ArgId(d)};
    } else {
      assert ChainArgs(0) == {ArgId(0)};
    }
  }

  // ---------------------------------------------------------------- how the solver reports it

  /** Sweep i moves argument i by one. */
  lemma ChainMoves(d: nat, tolerance: real, i: nat)
    requires 1 <= i <= d && tolerance < 1.0
    ensures !SettlesAt(Chain(d), tolerance, i)
  {
    var p, a := Chain(d), ArgId(i);
    hide Chain, ChainArgs, p.Iterate;
    ChainIsChecked(d);
    InChain(d, a);
    ChainIterates(d, i, a);
    ChainIterates(d, i - 1, a);
    assert Abs(At(p.Iterate(i), a) - At(p.Iterate(i - 1), a)) == 1.0;
  }

  lemma ChainMoving(d: nat, tolerance: real, i: nat)
    requires 1 <= i && 0.0 <= tolerance < 1.0
    ensures MovingAt(Chain(d), tolerance, i) == if i <= d then {ArgId(i)} else {}
  {
    var p := Chain(d);
    hide Chain, ChainArgs, p.Iterate;
    ChainIsChecked(d);
    forall a
      ensures a in MovingAt(p, tolerance, i) <==> i <= d && a == ArgId(i)
    {
      InChain(d, a);
      if a in ChainArgs(d) {
        ChainIterates(d, i, a);
        ChainIterates(d, i - 1, a);
      }
    }
  }

  /** With a bound of at most d sweeps the chain is unresolved, and the region names the one
      argument the next sweep would lift: nothing at all if the bound is d. */
  lemma ChainIsUnresolved(d: nat, m: nat, tolerance: real, r: Outcome)
    requires 1 <= m <= d && 0.0 <= tolerance < 1.0 && Solves(Chain(d), m, tolerance, r)
    ensures r.Solved? && !r.converged && r.iterations == m
    ensures r.unstable == if m < d then {ArgId(m + 1)} else {}
  {
    var p := Chain(d);
    hide Chain, p.Iterate, SettlesAt, MovingAt;
    ChainIsChecked(d);
    ChainMoving(d, tolerance, m + 1);
    ChainMoves(d, tolerance, r.iterations);
  }

  /** Some outcome the solver's contract allows. */
  lemma ChainHasOutcome(d: nat, m: nat, tolerance: real) returns (r: Outcome)
    requires 1 <= m <= d && 0.0 <= tolerance < 1.0
    ensures Solves(Chain(d), m, tolerance, r)
  {
    var p := Chain(d);
    ChainIsChecked(d);
    hide Chain, p.Iterate, MovingAt, SettlesAt;
    forall j | 1 <= j <= m
      ensures !SettlesAt(p, tolerance, j)
    {
      ChainMoves(d, tolerance, j);
    }
    r := Solved(p.Iterate(m), false, m, MovingAt(p, tolerance, m + 1));
  }

  // ---------------------------------------------------------------- the exact bounds

  ghost predicate Converges(p: Problem, m: nat, tolerance: real) {
    forall r :: Solves(p, m, tolerance, r) ==> r.Solved? && r.converged
  }

  /** Under DF-QuAD, every checked framework of depth at most d converges within m sweeps. */
  ghost predicate DepthIsEnough(d: nat, m: nat, tolerance: real) {
    forall p: Problem {:trigger Converges(p, m, tolerance)}
      | p.Checked() && p.sem == DF_QUAD && DepthAtMost(p.baf, d) :: Converges(p, m, tolerance)
  }

  /** Under DF-QuAD, every checked acyclic framework of at most n arguments does. */
  ghost predicate SizeIsEnough(n: nat, m: nat, tolerance: real) {
    forall p: Problem {:trigger Converges(p, m, tolerance)}
      | p.Checked() && p.sem == DF_QUAD && Acyclic(Links(p.baf)) && |p.baf.arguments| <= n :: Converges(p, m, tolerance)
  }

  lemma ChainDoesNotConverge(d: nat, m: nat, tolerance: real)
    requires 1 <= m <= d && 0.0 <= tolerance < 1.0
    ensures !Converges(Chain(d), m, tolerance)
  {
    var r := ChainHasOutcome(d, m, tolerance);
    ChainIsUnresolved(d, m, tolerance, r);
  }

  /** By depth: one sweep more than the longest path, and not one fewer. */
  lemma SettlesExactlyBeyondDepth(d: nat, m: nat, tolerance: real)
    requires m >= 1 && 0.0 <= tolerance < 1.0
    ensures DepthIsEnough(d, m, tolerance) <==> m >= d + 1
  {
    hide Converges, DepthAtMost, Chain, LawfulSemantics;
    DfQuadIsLawful();
    if m >= d + 1 {
      forall p: Problem | p.Checked() && p.sem == DF_QUAD && DepthAtMost(p.baf, d)
        ensures Converges(p, m, tolerance)
      {
        DeepEnough(p, d, m, tolerance);
      }
    } else {
      ChainIsChecked(d);
      ChainDepth(d);
      ChainDoesNotConverge(d, m, tolerance);
    }
  }

  lemma DeepEnough(p: Problem, d: nat, m: nat, tolerance: real)
    requires p.Checked() && p.sem == DF_QUAD && DepthAtMost(p.baf, d) && m >= d + 1 && tolerance >= 0.0
    ensures Converges(p, m, tolerance)
  {
    hide DepthAtMost, LawfulSemantics, p.Checked, Solves;
    DfQuadIsLawful();
    forall r | Solves(p, m, tolerance, r)
      ensures r.Solved? && r.converged
    {
      AcyclicConverges(p, 1.0, d, m, tolerance, r);
    }
  }

  /** By size: one sweep per argument, and not one fewer. */
  lemma SettlesExactlyWithASweepEach(n: nat, m: nat, tolerance: real)
    requires n >= 1 && m >= 1 && 0.0 <= tolerance < 1.0
    ensures SizeIsEnough(n, m, tolerance) <==> m >= n
  {
    hide Converges, DepthAtMost, Chain, Acyclic, Links;
    if m >= n {
      forall p: Problem | p.Checked() && p.sem == DF_QUAD && Acyclic(Links(p.baf)) && |p.baf.arguments| <= n
        ensures Converges(p, m, tolerance)
      {
        AcyclicHasDepth(p.baf, m - 1);
        DeepEnough(p, m - 1, m, tolerance);
      }
    } else {
      ChainIsChecked(n - 1);
      ChainDepth(n - 1);
      ChainSize(n - 1);
      ChainDoesNotConverge(n - 1, m, tolerance);
    }
  }
}
