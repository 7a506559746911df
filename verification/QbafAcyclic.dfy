/**
 Acyclic argumentation frameworks, and arguments off every cycle.

 A framework whose longest path has `d` edges reaches its one fixpoint after `d` sweeps, so the
 solver of Qbaf.dfy converges whenever its bound exceeds `d`. Adding a supporter to an argument
 that lies on no cycle never lowers it, at any sweep.
 */
module QbafAcyclic {
  import opened Sets
  import opened Confidence
  import opened GradualSemantics
  import opened Digraph
  import opened Qbaf
  import opened QbafDynamics

  /** The live edges of a framework, without their weights and signs. */
  ghost function Links(baf: Baf): set<(ArgId, ArgId)> {
    set e | e in baf.supports + baf.attacks && Live(baf.arguments, e) :: (e.src, e.dst)
  }

  /** Some walk of `k` edges ends at `a`. */
  ghost predicate EndsWalk(links: set<(ArgId, ArgId)>, a: ArgId, k: nat) {
    exists path :: Walk(links, path) && |path| == k + 1 && path[k] == a
  }

  /** No path has more than `d` edges. */
  ghost predicate DepthAtMost(baf: Baf, d: nat) {
    forall a, k {:trigger EndsWalk(Links(baf), a, k)} :: d < k ==> !EndsWalk(Links(baf), a, k)
  }

  lemma EdgeIsLink(p: Problem, a: ArgId, e: Edge)
    requires e in p.Supporters(a) || e in p.Attackers(a)
    ensures e.dst == a && e.src in p.baf.arguments && (e.src, a) in Links(p.baf)
  {
    IncomingIsLive(p.baf.arguments, p.baf.supports, a);
    IncomingIsLive(p.baf.arguments, p.baf.attacks, a);
    assert e in p.baf.supports + p.baf.attacks;
  }

  lemma LongerWalk(links: set<(ArgId, ArgId)>, b: ArgId, a: ArgId, k: nat)
    requires (b, a) in links && EndsWalk(links, b, k)
    ensures EndsWalk(links, a, k + 1)
  {
    var path :| Walk(links, path) && |path| == k + 1 && path[k] == b;
    var longer := path + [a];
    forall i | 0 <= i < |longer| - 1
      ensures (longer[i], longer[i + 1]) in links
    {
    }
    assert Walk(links, longer) && |longer| == k + 2 && longer[k + 1] == a;
  }

  lemma NoWalkIntoSources(p: Problem, a: ArgId, k: nat, e: Edge)
    requires !EndsWalk(Links(p.baf), a, k + 1) && (e in p.Supporters(a) || e in p.Attackers(a))
    ensures !EndsWalk(Links(p.baf), e.src, k)
  {
    EdgeIsLink(p, a, e);
    if EndsWalk(Links(p.baf), e.src, k) {
      LongerWalk(Links(p.baf), e.src, a, k);
    }
  }

  lemma SourceEndsWalk(links: set<(ArgId, ArgId)>, a: ArgId)
    ensures EndsWalk(links, a, 0)
  {
    assert Walk(links, [a]) && |[a]| == 1 && [a][0] == a;
  }

  lemma ContributionsAgree(edges: seq<Edge>, x: Strengths, y: Strengths)
    requires forall e :: e in edges ==> At(x, e.src) == At(y, e.src)
    ensures Contributions(edges, x) == Contributions(edges, y)
  {
    forall i | 0 <= i < |edges|
      ensures Contributions(edges, x)[i] == Contributions(edges, y)[i]
    {
      assert edges[i] in edges;
    }
  }

  /** Equal sources give equal updates. */
  lemma UpdatesAgree(p: Problem, x: Strengths, y: Strengths, a: ArgId)
    requires forall e :: e in p.Supporters(a) || e in p.Attackers(a) ==> At(x, e.src) == At(y, e.src)
    ensures p.Update(x, a) == p.Update(y, a)
  {
    ContributionsAgree(p.Supporters(a), x, y);
    ContributionsAgree(p.Attackers(a), x, y);
  }

  lemma UnarguedKeepsBase(p: Problem, kappa: real, x: Strengths, a: ArgId)
    requires LawfulSemantics(p.sem, kappa) && p.Supporters(a) == [] && p.Attackers(a) == []
    ensures p.Update(x, a) == At(p.base, a)
  {
    hide Closed, Lipschitz, OrderFree, Rises, Incoming;
    assert Contributions([], x) == [];
    assert BalancedAt(p.sem, At(p.base, a), []);
  }

  /** An argument no walk of `k + 1` edges reaches has its final strength from sweep `k` on. */
  lemma {:induction false} FinalFromDepth(p: Problem, kappa: real, k: nat, j: nat, a: ArgId)
    requires LawfulSemantics(p.sem, kappa) && a in p.baf.arguments
    requires !EndsWalk(Links(p.baf), a, k + 1) && k <= j
    ensures p.Iterate(j)[a] == p.Iterate(k)[a]
    decreases k
  {
    hide LawfulSemantics, EndsWalk, Links, p.Update, p.Supporters, p.Attackers;
    if k == 0 {
      NothingComesIn(p, a);
      if j > 0 {
        UnarguedKeepsBase(p, kappa, p.Iterate(j - 1), a);
      }
    } else if j > k {
      forall e | e in p.Supporters(a) || e in p.Attackers(a)
        ensures At(p.Iterate(j - 1), e.src) == At(p.Iterate(k - 1), e.src)
      {
        NoWalkIntoSources(p, a, k, e);
        EdgeIsLink(p, a, e);
        FinalFromDepth(p, kappa, k - 1, j - 1, e.src);
      }
      UpdatesAgree(p, p.Iterate(j - 1), p.Iterate(k - 1), a);
    }
  }

  lemma NothingComesIn(p: Problem, a: ArgId)
    requires !EndsWalk(Links(p.baf), a, 1)
    ensures p.Supporters(a) == [] && p.Attackers(a) == []
  {
    hide EndsWalk, Links, Incoming;
    if p.Supporters(a) != [] {
      var e := p.Supporters(a)[0];
      NoWalkIntoSources(p, a, 0, e);
      SourceEndsWalk(Links(p.baf), e.src);
    }
    if p.Attackers(a) != [] {
      var e := p.Attackers(a)[0];
      NoWalkIntoSources(p, a, 0, e);
      SourceEndsWalk(Links(p.baf), e.src);
    }
  }

  /** After `d` sweeps nothing moves any more. */
  lemma ExactAfterDepth(p: Problem, kappa: real, d: nat, j: nat)
    requires LawfulSemantics(p.sem, kappa) && DepthAtMost(p.baf, d) && d <= j
    ensures p.Iterate(j) == p.Iterate(d)
    ensures p.Sweep(p.Iterate(d)) == p.Iterate(d)
  {
    hide LawfulSemantics, p.Iterate, p.Sweep, EndsWalk;
    forall a | a in p.baf.arguments
      ensures p.Iterate(j)[a] == p.Iterate(d)[a] && p.Iterate(d + 1)[a] == p.Iterate(d)[a]
    {
      FinalFromDepth(p, kappa, d, j, a);
      FinalFromDepth(p, kappa, d, d + 1, a);
    }
    IterateUnfolds(p, d);
  }

  lemma {:induction false} FixpointMatchesAtDepth(p: Problem, kappa: real, x: Strengths, k: nat, a: ArgId)
    requires LawfulSemantics(p.sem, kappa) && p.Sweep(x) == x && a in p.baf.arguments
    requires !EndsWalk(Links(p.baf), a, k + 1)
    ensures At(x, a) == p.Iterate(k)[a]
    decreases k
  {
    hide LawfulSemantics, EndsWalk, Links, p.Update, p.Supporters, p.Attackers;
    assert x[a] == p.Update(x, a);
    if k == 0 {
      NothingComesIn(p, a);
      UnarguedKeepsBase(p, kappa, x, a);
    } else {
      forall e | e in p.Supporters(a) || e in p.Attackers(a)
        ensures At(x, e.src) == At(p.Iterate(k - 1), e.src)
      {
        NoWalkIntoSources(p, a, k, e);
        EdgeIsLink(p, a, e);
        FixpointMatchesAtDepth(p, kappa, x, k - 1, e.src);
      }
      UpdatesAgree(p, x, p.Iterate(k - 1), a);
    }
  }

  /** ... and that is the only fixpoint there is, in or out of [0, 1]. */
  lemma AcyclicFixpointIsUnique(p: Problem, kappa: real, d: nat, x: Strengths)
    requires LawfulSemantics(p.sem, kappa) && DepthAtMost(p.baf, d) && p.Sweep(x) == x
    ensures x == p.Iterate(d)
  {
    hide LawfulSemantics, EndsWalk, p.Iterate;
    assert x.Keys == p.baf.arguments;
    forall a | a in p.baf.arguments
      ensures x[a] == p.Iterate(d)[a]
    {
      FixpointMatchesAtDepth(p, kappa, x, d, a);
    }
  }

  /** A bound above the depth is enough, and at tolerance zero the answer is exact. */
  lemma AcyclicConverges(p: Problem, kappa: real, d: nat, maxIterations: nat, tolerance: real, r: Outcome)
    requires p.Checked() && LawfulSemantics(p.sem, kappa) && DepthAtMost(p.baf, d)
    requires maxIterations >= d + 1 && tolerance >= 0.0 && Solves(p, maxIterations, tolerance, r)
    ensures r.Solved? && r.converged && r.iterations <= d + 1
    ensures tolerance == 0.0 ==> r.acceptability == p.Iterate(d)
  {
    hide LawfulSemantics, DepthAtMost, p.Iterate, p.Sweep, p.Checked;
    ExactAfterDepth(p, kappa, d, d + 1);
    assert SettlesAt(p, tolerance, d + 1);
    if tolerance == 0.0 {
      var i := r.iterations;
      IterateUnfolds(p, i - 1);
      NearlyEqual(p, p.Iterate(i), p.Iterate(i - 1));
      AcyclicFixpointIsUnique(p, kappa, d, p.Iterate(i - 1));
    }
  }

  /** A framework without cycles has no path through more edges than its other arguments. */
  lemma AcyclicHasDepth(baf: Baf, d: nat)
    requires Acyclic(Links(baf)) && |baf.arguments| <= d + 1
    ensures DepthAtMost(baf, d)
  {
    forall a, k | d < k
      ensures !EndsWalk(Links(baf), a, k)
    {
      if EndsWalk(Links(baf), a, k) {
        WalkTooLong(baf, a, k);
      }
    }
  }

  lemma WalkTooLong(baf: Baf, a: ArgId, k: nat)
    requires EndsWalk(Links(baf), a, k) && 0 < k && |baf.arguments| <= k
    ensures !Acyclic(Links(baf))
  {
    var path :| Walk(Links(baf), path) && |path| == k + 1 && path[k] == a;
    WalkStaysInside(baf, path);
    LongWalkTurns(Links(baf), path, baf.arguments);
  }

  /** The documented promise: an acyclic framework always converges, given a sweep per argument. */
  lemma AcyclicAlwaysConverges(p: Problem, kappa: real, maxIterations: nat, tolerance: real, r: Outcome)
    requires p.Checked() && LawfulSemantics(p.sem, kappa) && Acyclic(Links(p.baf))
    requires 1 <= maxIterations && |p.baf.arguments| <= maxIterations
    requires tolerance >= 0.0 && Solves(p, maxIterations, tolerance, r)
    ensures r.Solved? && r.converged
  {
    AcyclicHasDepth(p.baf, maxIterations - 1);
    hide LawfulSemantics, DepthAtMost, p.Checked;
    AcyclicConverges(p, kappa, maxIterations - 1, maxIterations, tolerance, r);
  }

  // ---------------------------------------------------------------- one more supporter

  function WithSupport(p: Problem, e: Edge): Problem {
    p.(baf := p.baf.(supports := p.baf.supports + [e]))
  }

  lemma WithSupportIncoming(p: Problem, e: Edge, a: ArgId)
    ensures WithSupport(p, e).Attackers(a) == p.Attackers(a)
    ensures WithSupport(p, e).Supporters(a)
         == p.Supporters(a) + if Live(p.baf.arguments, e) && e.dst == a then [e] else []
  {
    assert (p.baf.supports + [e])[..|p.baf.supports|] == p.baf.supports;
  }

  /** Arguments upstream of the new edge do not notice it. */
  lemma {:induction false} UpstreamUnchanged(p: Problem, e: Edge, k: nat, u: ArgId)
    requires u in p.baf.arguments && u != e.dst
    requires var links := Links(WithSupport(p, e).baf);
             Reaches(links, u, e.dst) && !Reaches(links, e.dst, e.dst)
    ensures WithSupport(p, e).Iterate(k)[u] == p.Iterate(k)[u]
    decreases k
  {
    var q := WithSupport(p, e);
    var links := Links(q.baf);
    hide Reaches, p.Supporters, p.Attackers, p.Update, Links;
    if k > 0 {
      WithSupportIncoming(p, e, u);
      forall f | f in p.Supporters(u) || f in p.Attackers(u)
        ensures At(q.Iterate(k - 1), f.src) == At(p.Iterate(k - 1), f.src)
      {
        EdgeIsLink(q, u, f);
        EdgeReaches(links, f.src, u);
        ReachesTransitive(links, f.src, u, e.dst);
        UpstreamUnchanged(p, e, k - 1, f.src);
      }
      UpdatesAgree(p, q.Iterate(k - 1), p.Iterate(k - 1), u);
      SameUpdate(p, q, q.Iterate(k - 1), u);
    }
  }

  lemma SameUpdate(p: Problem, q: Problem, x: Strengths, a: ArgId)
    requires q.sem == p.sem && q.base == p.base
    requires q.Supporters(a) == p.Supporters(a) && q.Attackers(a) == p.Attackers(a)
    ensures q.Update(x, a) == p.Update(x, a)
  {
    hide Incoming;
  }

  lemma SupporterRaises(p: Problem, kappa: real, e: Edge, x: Strengths)
    requires p.Checked() && LawfulSemantics(p.sem, kappa) && Unit(e.strength) && InUnit(p, x)
    ensures p.Update(x, e.dst) <= WithSupport(p, e).Update(x, e.dst)
  {
    var q, a := WithSupport(p, e), e.dst;
    WithSupportIncoming(p, e, a);
    hide Incoming, Contributions, Units, Closed, Balanced, Lipschitz, OrderFree, Lent;
    if Live(p.baf.arguments, e) {
      ContributionsAppend(p.Supporters(a), e, x);
      IncomingInRange(p.baf.arguments, p.baf.supports, a);
      IncomingInRange(p.baf.arguments, p.baf.attacks, a);
      ContributionsInUnit(p, p.Supporters(a), x);
      ContributionsInUnit(p, p.Attackers(a), x);
      LentInUnit(p, e, x);
      assert RisesAt(p.sem, At(p.base, a), Contributions(p.Supporters(a), x), Lent(e, x),
                     Contributions(p.Attackers(a), x));
    } else {
      assert q.Supporters(a) == p.Supporters(a);
    }
  }

  lemma LentInUnit(p: Problem, e: Edge, x: Strengths)
    requires Unit(e.strength) && InUnit(p, x)
    ensures Unit(Lent(e, x))
  {
    ProductInUnit(e.strength, At(x, e.src));
  }

  /** A new supporter of an argument that lies on no cycle never lowers it, at any sweep. */
  lemma AddingSupportNeverLowers(p: Problem, kappa: real, e: Edge, k: nat)
    requires p.Checked() && LawfulSemantics(p.sem, kappa) && Unit(e.strength) && e.dst in p.baf.arguments
    requires !Reaches(Links(WithSupport(p, e).baf), e.dst, e.dst)
    ensures p.Iterate(k)[e.dst] <= WithSupport(p, e).Iterate(k)[e.dst]
  {
    var q, a := WithSupport(p, e), e.dst;
    hide Reaches, p.Supporters, p.Attackers, p.Update, Links, LawfulSemantics, p.Checked;
    if k > 0 {
      WithSupportIncoming(p, e, a);
      IteratesInUnit(p, kappa, k - 1);
      SupporterRaises(p, kappa, e, p.Iterate(k - 1));
      forall f | f in q.Supporters(a) || f in q.Attackers(a)
        ensures At(q.Iterate(k - 1), f.src) == At(p.Iterate(k - 1), f.src)
      {
        EdgeIsLink(q, a, f);
        EdgeReaches(Links(q.baf), f.src, a);
        UpstreamUnchanged(p, e, k - 1, f.src);
      }
      UpdatesAgree(q, q.Iterate(k - 1), p.Iterate(k - 1), a);
    }
  }

  /** So on an acyclic framework the adjudicated strength itself is not lowered. */
  lemma AddingSupportNeverLowersTheVerdict(p: Problem, kappa: real, e: Edge, x: Strengths, y: Strengths)
    requires p.Checked() && LawfulSemantics(p.sem, kappa) && Unit(e.strength) && e.dst in p.baf.arguments
    requires Acyclic(Links(WithSupport(p, e).baf))
    requires p.Sweep(x) == x && WithSupport(p, e).Sweep(y) == y
    ensures x[e.dst] <= y[e.dst]
  {
    var q := WithSupport(p, e);
    var d := |p.baf.arguments|;
    AcyclicHasDepth(q.baf, d);
    FewerLinks(p, e);
    AcyclicHasDepth(p.baf, d);
    hide LawfulSemantics, DepthAtMost, Links;
    AcyclicFixpointIsUnique(p, kappa, d, x);
    AcyclicFixpointIsUnique(q, kappa, d, y);
    AddingSupportNeverLowers(p, kappa, e, d);
  }

  lemma FewerLinks(p: Problem, e: Edge)
    requires Acyclic(Links(WithSupport(p, e).baf))
    ensures Acyclic(Links(p.baf))
  {
    var links, more := Links(p.baf), Links(WithSupport(p, e).baf);
    assert links <= more;
    forall u
      ensures !Reaches(links, u, u)
    {
      if Reaches(links, u, u) {
        ReachesMonotone(links, more, u, u);
      }
    }
  }

  // ---------------------------------------------------------------- the unresolved region

  /** Given a sweep per argument, the region an unresolved result names lies on cycles or downstream
      of them: acyclic parts of the framework are never in it. */
  lemma RegionIsFedByACycle(p: Problem, kappa: real, m: nat, tolerance: real, r: Outcome, a: ArgId)
    requires p.Checked() && LawfulSemantics(p.sem, kappa) && tolerance >= 0.0
    requires 1 <= m && |p.baf.arguments| <= m && Solves(p, m, tolerance, r)
    requires r.Solved? && a in r.unstable
    ensures exists u :: Reaches(Links(p.baf), u, u) && (u == a || Reaches(Links(p.baf), u, a))
  {
    hide LawfulSemantics, Links, p.Iterate, p.Checked;
    assert a in MovingAt(p, tolerance, m + 1);
    if !EndsWalk(Links(p.baf), a, m + 1) {
      FinalFromDepth(p, kappa, m, m + 1, a);
    } else {
      LongWalkComesFromACycle(p.baf, a, m + 1);
    }
  }

  lemma LongWalkComesFromACycle(baf: Baf, a: ArgId, k: nat)
    requires EndsWalk(Links(baf), a, k) && 0 < k && |baf.arguments| <= k
    ensures exists u :: Reaches(Links(baf), u, u) && (u == a || Reaches(Links(baf), u, a))
  {
    var path :| Walk(Links(baf), path) && |path| == k + 1 && path[k] == a;
    WalkStaysInside(baf, path);
    hide Links;
    var i, j := Pigeonhole(path, baf.arguments);
    assert WalkFrom(Links(baf), path[i..j + 1], path[i], path[i]);
    assert WalkFrom(Links(baf), path[i..], path[i], a);
    assert Reaches(Links(baf), path[i], path[i]) && Reaches(Links(baf), path[i], a);
  }

  lemma WalkStaysInside(baf: Baf, path: seq<ArgId>)
    requires Walk(Links(baf), path) && |path| > 1
    ensures forall i :: 0 <= i < |path| ==> path[i] in baf.arguments
  {
    forall i | 0 <= i < |path|
      ensures path[i] in baf.arguments
    {
      if i == 0 {
        assert (path[0], path[1]) in Links(baf);
      } else {
        assert (path[i - 1], path[i]) in Links(baf);
      }
    }
  }
}
