/**
 Fusing opinions, as src/iknos/core/subjective_logic.py does it in pairs and `fuse` folds them.

 What a pair leaves open is settled for every two opinions the constructor accepts
 (`WhatFusionLeavesOpen`). Folding the encoded votes of independent panels cumulatively is
 encoding all their votes together, exactly as long as the fold never meets two opinions it takes
 for dogmatic (`PoolsExactlyWhen`). FusionOrder.dfy says when the order of a fold shows.
 */
module OpinionFusion {
  import opened Sets
  import opened Confidence
  import opened SubjectiveLogic

  // ---------------------------------------------------------------- two opinions

  /** Either fusion commutes exactly on opinions of one base rate, refusals apart. */
  lemma FusionCommutesExactlyWhen(fusion: Fusion, a: Opinion, b: Opinion)
    ensures FusePair(fusion, a, b) == FusePair(fusion, b, a)
       <==> a.baseRate == b.baseRate || FusePair(fusion, a, b) == ValueError
  {
    PartsCommute(fusion, a.belief, a.uncertainty, b.belief, b.uncertainty);
    PartsCommute(fusion, a.disbelief, a.uncertainty, b.disbelief, b.uncertainty);
    hide Pooled, Open, Kappa;
  }

  lemma PartsCommute(fusion: Fusion, x: real, u: real, y: real, v: real)
    ensures Pooled(x, u, y, v) == Pooled(y, v, x, u)
    ensures Open(fusion, u, v) == Open(fusion, v, u) && Kappa(fusion, u, v) == Kappa(fusion, v, u)
  {
  }

  /** Averaging is idempotent, save on opinions the tolerance rounds to dogmatic ones. */
  lemma AveragingIsIdempotentExactlyWhen(a: Opinion)
    ensures FusePair(Averaging, a, a) == Made(a) <==> a.uncertainty == 0.0 || a.uncertainty > Tolerance
  {
    if !Dogmatic(a) {
      SelfAverage(a.belief, a.uncertainty);
      SelfAverage(a.disbelief, a.uncertainty);
      hide Pooled, Open, Kappa;
    }
  }

  lemma SelfAverage(x: real, u: real)
    requires u > 0.0
    ensures var kappa := Kappa(Averaging, u, u);
            kappa > 0.0 && Pooled(x, u, x, u) / kappa == x && Open(Averaging, u, u) / kappa == u
  {
    var kappa := u + u;
    Spread(x, u, u);
    Spread(u, u, u);
    Cancel(x * kappa / kappa, x, kappa);
    Cancel(u * kappa / kappa, u, kappa);
  }

  /** What is left open by two opinions, whatever the constructor accepted. Cumulative fusion only
      closes, strictly unless one of them is vacuous or there is nothing to close. Averaging leaves no
      more than the more open one, and no less than the sharper one unless both are within the
      tolerance of zero without being zero. */
  lemma WhatFusionLeavesOpen(a: Opinion, b: Opinion)
    ensures FusePair(Cumulative, a, b).Made? ==>
              var c := FusePair(Cumulative, a, b).opinion.uncertainty;
              && c <= a.uncertainty && c <= b.uncertainty
              && (c == a.uncertainty <==> a.uncertainty == 0.0 || b.uncertainty == 1.0)
    ensures FusePair(Averaging, a, b).Made? ==>
              var m, u, v := FusePair(Averaging, a, b).opinion.uncertainty, a.uncertainty, b.uncertainty;
              && (m <= u || m <= v)
              && (u <= m || v <= m <==> !(0.0 < u <= Tolerance && 0.0 < v <= Tolerance))
  {
    var u, v := a.uncertainty, b.uncertainty;
    if !(Dogmatic(a) && Dogmatic(b)) {
      KappaPositive(Cumulative, u, v);
      KappaPositive(Averaging, u, v);
      AddedOpen(u, v);
      AddedOpen(v, u);
      AveragedOpen(u, v);
      hide Pooled, Open, Kappa;
    }
  }

  lemma AddedOpen(u: real, v: real)
    requires Unit(u) && Unit(v) && Kappa(Cumulative, u, v) > 0.0
    ensures var c := Open(Cumulative, u, v) / Kappa(Cumulative, u, v);
            c <= u && (c == u <==> u == 0.0 || v == 1.0)
    ensures Open(Cumulative, u, v) == Open(Cumulative, v, u) && Kappa(Cumulative, u, v) == Kappa(Cumulative, v, u)
  {
    var kappa := u + v - u * v;
    NonNegativeProduct(u, 1.0 - v);
    NonNegativeProduct(u, u * (1.0 - v));
    assert u * kappa - u * v == u * (u * (1.0 - v));
    Between(u * v, kappa, u);
    ZeroProduct(u, 1.0 - v);
    ZeroProduct(u, u * (1.0 - v));
  }

  lemma ZeroProduct(x: real, y: real)
    ensures x * y == 0.0 <==> x == 0.0 || y == 0.0
  {
    if x * y == 0.0 && x != 0.0 {
      Cancel(y, 0.0, x);
    }
  }

  /** Comparing a quotient with a bound. */
  lemma Between(x: real, t: real, z: real)
    requires t > 0.0
    ensures (x / t <= z <==> x <= z * t) && (x / t == z <==> x == z * t)
  {
    var q := x / t;
    assert q * t == x;
    SameSign(t, z - q);
    Spread(t, z, -q);
    if x == z * t {
      Cancel(q, z, t);
    }
  }

  lemma AveragedOpen(u: real, v: real)
    requires Unit(u) && Unit(v) && Kappa(Averaging, u, v) > 0.0
    ensures var m := Open(Averaging, u, v) / Kappa(Averaging, u, v);
            u <= m <= v || v <= m <= u
  {
    if u <= v {
      AveragedBetween(u, v);
    } else {
      AveragedBetween(v, u);
      assert u * v == v * u;
    }
  }

  lemma AveragedBetween(u: real, v: real)
    requires 0.0 <= u <= v && u + v > 0.0
    ensures u <= 2.0 * (u * v) / (u + v) <= v
  {
    NonNegativeProduct(u, v - u);
    NonNegativeProduct(v, v - u);
    assert u * (v - u) == 2.0 * (u * v) - u * (u + v);
    assert v * (v - u) == v * (u + v) - 2.0 * (u * v);
    Between(2.0 * (u * v), u + v, v);
    Between(2.0 * (u * v), u + v, u);
  }

  /** Averaging refuses no two comparable opinions, slack or not, unless it rounds both to dogmatic
      ones. */
  lemma AveragingIsNotRefused(a: Opinion, b: Opinion)
    requires Comparable(a, b) && !(Dogmatic(a) && Dogmatic(b))
    ensures FusePair(Averaging, a, b).Made?
  {
    var u, v := a.uncertainty, b.uncertainty;
    KappaPositive(Averaging, u, v);
    Mixed(a.belief, u, b.belief, v, 0.0, 1.0);
    Mixed(a.disbelief, u, b.disbelief, v, 0.0, 1.0);
    Mixed(u, u, v, v, 0.0, 1.0);
    Mixed(a.Total(), u, b.Total(), v, 1.0 - Tolerance, 1.0 + Tolerance);
    assert Pooled(u, u, v, v) == Open(Averaging, u, v);
    TotalPooled(a, b);
    Shares3(Pooled(a.belief, u, b.belief, v), Pooled(a.disbelief, u, b.disbelief, v), Pooled(u, u, v, v), u + v);
    hide Pooled, Open;
  }

  lemma TotalPooled(a: Opinion, b: Opinion)
    ensures var u, v := a.uncertainty, b.uncertainty;
            Pooled(a.Total(), u, b.Total(), v)
            == Pooled(a.belief, u, b.belief, v) + Pooled(a.disbelief, u, b.disbelief, v) + Pooled(u, u, v, v)
  {
  }

  /** A weighted mean stays within the bounds of what it mixes. */
  lemma Mixed(x: real, u: real, y: real, v: real, low: real, high: real)
    requires low <= x <= high && low <= y <= high && u >= 0.0 && v >= 0.0 && u + v > 0.0
    ensures low <= Pooled(x, u, y, v) / (u + v) <= high
  {
    NonNegativeProduct(x - low, v);
    NonNegativeProduct(y - low, u);
    NonNegativeProduct(high - x, v);
    NonNegativeProduct(high - y, u);
    assert (x - low) * v + (y - low) * u == Pooled(x, u, y, v) - low * (u + v);
    assert (high - x) * v + (high - y) * u == high * (u + v) - Pooled(x, u, y, v);
    Between(Pooled(x, u, y, v), u + v, high);
    AtLeast(Pooled(x, u, y, v), u + v, low);
  }

  lemma AtLeast(x: real, t: real, z: real)
    requires t > 0.0 && z * t <= x
    ensures z <= x / t
  {
    Between(x, t, z);
  }

  /** Averaging two opinions within the tolerance of zero invents certainty: this one with itself
      leaves nothing open. */
  lemma AveragingCanInventCertainty()
    ensures var a := Masses(1.0 - Tolerance, 0.0, Tolerance, 0.5);
            a.Accepted() && a.Exact() && FusePair(Averaging, a, a).Made?
            && FusePair(Averaging, a, a).opinion.uncertainty == 0.0 < a.uncertainty
  {
  }

  // ---------------------------------------------------------------- the fold

  ghost function FuseAll(fusion: Fusion, ops: seq<Opinion>): Result {
    if ops == [] then ValueError
    else if |ops| == 1 then Made(ops[0])
    else
      var front := FuseAll(fusion, ops[..|ops| - 1]);
      if front.Made? then FusePair(fusion, front.opinion, ops[|ops| - 1]) else ValueError
  }

  method Fuse(fusion: Fusion, ops: seq<Opinion>) returns (r: Result)
    ensures r == FuseAll(fusion, ops)
  {
    if ops == [] {
      return ValueError;
    }
    hide FusePair;
    var fused := ops[0];
    for i := 1 to |ops|
      invariant FuseAll(fusion, ops[..i]) == Made(fused)
    {
      assert ops[..i + 1][..i] == ops[..i];
      var next := FusePair(fusion, fused, ops[i]);
      if next == ValueError {
        RefusalsStay(fusion, ops, i + 1);
        return ValueError;
      }
      fused := next.opinion;
    }
    assert ops[..|ops|] == ops;
    r := Made(fused);
  }

  lemma {:induction false} RefusalsStay(fusion: Fusion, ops: seq<Opinion>, i: nat)
    requires 1 <= i <= |ops| && FuseAll(fusion, ops[..i]) == ValueError
    ensures FuseAll(fusion, ops) == ValueError
  {
    hide FusePair;
    if i < |ops| {
      assert ops[..|ops| - 1][..i] == ops[..i];
      RefusalsStay(fusion, ops[..|ops| - 1], i);
    } else {
      assert ops[..i] == ops;
    }
  }

  // ---------------------------------------------------------------- opinions on one proposition

  /** Masses that sum to one, one base rate, and something left open. */
  ghost predicate AllOpen(ops: seq<Opinion>, baseRate: real) {
    forall o :: o in ops ==> o.Exact() && o.baseRate == baseRate && !Dogmatic(o)
  }

  /** The same with nothing left open. */
  ghost predicate AllClosed(ops: seq<Opinion>, baseRate: real) {
    forall o :: o in ops ==> o.Exact() && o.baseRate == baseRate && o.uncertainty == 0.0
  }

  lemma Reordered(ops: seq<Opinion>, ops': seq<Opinion>)
    requires multiset(ops) == multiset(ops')
    ensures |ops| == |ops'| && forall o :: o in ops <==> o in ops'
  {
    forall o
      ensures o in ops <==> o in ops'
    {
      assert o in multiset(ops) <==> o in multiset(ops');
    }
    assert |multiset(ops)| == |ops| && |multiset(ops')| == |ops'|;
  }

  lemma FuseOneMore(fusion: Fusion, ops: seq<Opinion>, o: Opinion)
    requires ops != []
    ensures FuseAll(fusion, ops + [o])
         == if FuseAll(fusion, ops).Made? then FusePair(fusion, FuseAll(fusion, ops).opinion, o) else ValueError
  {
    assert (ops + [o])[..|ops|] == ops;
  }

  // ---------------------------------------------------------------- cumulative fusion

  ghost function TotalOdds(ops: seq<Opinion>, baseRate: real): Odds
    requires AllOpen(ops, baseRate)
  {
    if ops == [] then Odds(0.0, 0.0) else TotalOdds(ops[..|ops| - 1], baseRate).Plus(OddsOf(ops[|ops| - 1]))
  }

  /** Folding open opinions adds their odds, and nothing is refused. */
  lemma {:induction false} CumulativeFoldAdds(ops: seq<Opinion>, baseRate: real)
    requires AllOpen(ops, baseRate) && ops != []
    ensures var r := FuseAll(Cumulative, ops);
            r.Made? && HasOdds(r.opinion, TotalOdds(ops, baseRate)) && r.opinion.baseRate == baseRate
  {
    var front, last := ops[..|ops| - 1], ops[|ops| - 1];
    ExactHasOdds(last);
    if |ops| > 1 {
      hide FusePair, HasOdds, OddsOf;
      CumulativeFoldAdds(front, baseRate);
      FusingFusesOdds(Cumulative, FuseAll(Cumulative, front).opinion, last, TotalOdds(front, baseRate), OddsOf(last));
    } else {
      assert front == [] && TotalOdds(front, baseRate) == Odds(0.0, 0.0);
    }
  }

  lemma {:induction false} TotalSkips(a: seq<Opinion>, o: Opinion, b: seq<Opinion>, baseRate: real)
    requires AllOpen(a + [o] + b, baseRate) && AllOpen(a + b, baseRate)
    ensures TotalOdds(a + [o] + b, baseRate) == TotalOdds(a + b, baseRate).Plus(OddsOf(o))
  {
    hide OddsOf;
    if b == [] {
      assert a + [o] + b == a + [o] && a + b == a && (a + [o])[..|a|] == a;
    } else {
      var front, last := b[..|b| - 1], b[|b| - 1];
      assert (a + [o] + b)[..|a| + |b|] == a + [o] + front && (a + b)[..|a| + |b| - 1] == a + front;
      TotalSkips(a, o, front, baseRate);
    }
  }

  lemma {:induction false} TotalIgnoresOrder(ops: seq<Opinion>, ops': seq<Opinion>, baseRate: real)
    requires AllOpen(ops, baseRate) && AllOpen(ops', baseRate) && multiset(ops) == multiset(ops')
    ensures TotalOdds(ops, baseRate) == TotalOdds(ops', baseRate)
  {
    hide OddsOf;
    assert |multiset(ops)| == |ops| && |multiset(ops')| == |ops'|;
    if ops != [] {
      var front, last := ops[..|ops| - 1], ops[|ops| - 1];
      assert ops == front + [last];
      var a, b := FindLast(ops', front, last);
      TotalSkips(a, last, b, baseRate);
      TotalIgnoresOrder(front, a + b, baseRate);
    }
  }

  /** Open opinions of independent judges can be fused in any order. */
  lemma CumulativeIgnoresOrder(ops: seq<Opinion>, ops': seq<Opinion>, baseRate: real)
    requires AllOpen(ops, baseRate) && multiset(ops) == multiset(ops') && ops != []
    ensures AllOpen(ops', baseRate) && FuseAll(Cumulative, ops) == FuseAll(Cumulative, ops')
  {
    hide OddsOf, FuseAll, HasOdds, TotalOdds;
    Reordered(ops, ops');
    CumulativeFoldAdds(ops, baseRate);
    CumulativeFoldAdds(ops', baseRate);
    TotalIgnoresOrder(ops, ops', baseRate);
    SameOddsSameOpinion(FuseAll(Cumulative, ops).opinion, FuseAll(Cumulative, ops').opinion, TotalOdds(ops, baseRate));
  }

  // ---------------------------------------------------------------- pooling votes

  /** Counts for and against, summed up. */
  function Tally(counts: seq<Odds>): Odds {
    if counts == [] then Odds(0.0, 0.0) else Tally(counts[..|counts| - 1]).Plus(counts[|counts| - 1])
  }

  ghost predicate NonNegative(count: Odds) {
    count.pro >= 0.0 && count.con >= 0.0
  }

  /** The opinion of a panel that counted so. */
  ghost function PanelOpinion(count: Odds, baseRate: real, priorWeight: real): Result {
    OpinionFromEvidence(count.pro, count.con, baseRate, priorWeight)
  }

  /** Panel `i` counted `counts[i]`. */
  ghost predicate Encodes(counts: seq<Odds>, ops: seq<Opinion>, baseRate: real, priorWeight: real) {
    && |ops| == |counts| && Unit(baseRate) && priorWeight > 0.0
    && forall i :: 0 <= i < |ops| ==>
         NonNegative(counts[i]) && PanelOpinion(counts[i], baseRate, priorWeight) == Made(ops[i])
  }

  /** So many votes for one panel that the tolerance rounds its opinion to a dogmatic one. */
  ghost predicate Overwhelming(count: Odds, baseRate: real, priorWeight: real) {
    var r := PanelOpinion(count, baseRate, priorWeight);
    r.Made? && Dogmatic(r.opinion)
  }

  /** No overwhelming panel comes after votes that are overwhelming together. */
  ghost predicate NeverTwice(counts: seq<Odds>, baseRate: real, priorWeight: real) {
    forall i :: 1 <= i < |counts| && Overwhelming(counts[i], baseRate, priorWeight) ==>
      !Overwhelming(Tally(counts[..i]), baseRate, priorWeight)
  }

  lemma OverSum(x: real, y: real, w: real)
    requires w > 0.0
    ensures (x + y) / w == x / w + y / w
  {
    NonZeroQuotient(x, w);
    NonZeroQuotient(y, w);
    Spread(w, x / w, y / w);
    Cancel((x + y) / w, x / w + y / w, w);
  }

  lemma {:induction false} TallyIsNonNegative(counts: seq<Odds>)
    requires forall i :: 0 <= i < |counts| ==> NonNegative(counts[i])
    ensures NonNegative(Tally(counts))
  {
    if counts != [] {
      TallyIsNonNegative(counts[..|counts| - 1]);
    }
  }

  lemma PanelHasOdds(count: Odds, baseRate: real, w: real)
    requires NonNegative(count) && Unit(baseRate) && w > 0.0
    ensures var r := PanelOpinion(count, baseRate, w);
            r.Made? && r.opinion.baseRate == baseRate && HasOdds(r.opinion, Odds(count.pro / w, count.con / w))
  {
    EncodingKeepsOdds(count.pro, count.con, baseRate, w);
  }

  /** Fusing two panels is one panel with the votes of both, unless both are overwhelming: then
      nothing is left open. */
  lemma TwoPanels(x: Odds, y: Odds, baseRate: real, w: real)
    requires NonNegative(x) && NonNegative(y) && Unit(baseRate) && w > 0.0
    ensures var a, b := PanelOpinion(x, baseRate, w), PanelOpinion(y, baseRate, w);
            && a.Made? && b.Made?
            && (Overwhelming(x, baseRate, w) && Overwhelming(y, baseRate, w) ==>
                  Closes(FusePair(Cumulative, a.opinion, b.opinion)))
            && (!(Overwhelming(x, baseRate, w) && Overwhelming(y, baseRate, w)) ==>
                  FusePair(Cumulative, a.opinion, b.opinion) == PanelOpinion(x.Plus(y), baseRate, w))
  {
    PanelHasOdds(x, baseRate, w);
    PanelHasOdds(y, baseRate, w);
    PanelHasOdds(x.Plus(y), baseRate, w);
    hide PanelOpinion, HasOdds, FusePair, Unit;
    var a, b := PanelOpinion(x, baseRate, w).opinion, PanelOpinion(y, baseRate, w).opinion;
    if Overwhelming(x, baseRate, w) && Overwhelming(y, baseRate, w) {
      DogmaticAverage(Cumulative, a, b);
    } else {
      OverSum(x.pro, y.pro, w);
      OverSum(x.con, y.con, w);
      FusingFusesOdds(Cumulative, a, b, Odds(x.pro / w, x.con / w), Odds(y.pro / w, y.con / w));
      SameOddsSameOpinion(FusePair(Cumulative, a, b).opinion, PanelOpinion(x.Plus(y), baseRate, w).opinion,
                          Odds((x.pro + y.pro) / w, (x.con + y.con) / w));
    }
  }

  /** Refused, or nothing left open. */
  ghost predicate Closes(r: Result) {
    r.Made? ==> r.opinion.uncertainty == 0.0
  }

  /** What is closed stays closed. */
  lemma StaysClosed(fusion: Fusion, a: Opinion, b: Opinion)
    requires a.uncertainty == 0.0
    ensures Closes(FusePair(fusion, a, b))
  {
    if !(Dogmatic(a) && Dogmatic(b)) && FusePair(fusion, a, b).Made? {
      ClosedAbsorbs(fusion, a, b);
    }
  }

  lemma {:induction false} PoolsOrCloses(counts: seq<Odds>, ops: seq<Opinion>, baseRate: real, w: real)
    requires Encodes(counts, ops, baseRate, w) && ops != []
    ensures NeverTwice(counts, baseRate, w) ==> FuseAll(Cumulative, ops) == PanelOpinion(Tally(counts), baseRate, w)
    ensures !NeverTwice(counts, baseRate, w) ==> Closes(FuseAll(Cumulative, ops))
  {
    hide FusePair, PanelOpinion, Overwhelming, NonNegative, Unit;
    var front, last := counts[..|counts| - 1], counts[|counts| - 1];
    if |ops| == 1 {
      assert front == [] && Tally(counts) == last by { TallyOfOne(last); assert counts == [last]; }
    } else {
      PoolsOrCloses(front, ops[..|ops| - 1], baseRate, w);
      TallyIsNonNegative(front);
      TwoPanels(Tally(front), last, baseRate, w);
      OneMorePanel(counts, baseRate, w);
      var acc := FuseAll(Cumulative, ops[..|ops| - 1]);
      if !NeverTwice(front, baseRate, w) && acc.Made? {
        StaysClosed(Cumulative, acc.opinion, ops[|ops| - 1]);
      }
    }
  }

  lemma TallyOfOne(count: Odds)
    ensures Tally([count]) == count
  {
    assert [count][..0] == [];
    assert Tally([count][..0]) == Odds(0.0, 0.0);
  }

  lemma OneMorePanel(counts: seq<Odds>, baseRate: real, w: real)
    requires |counts| > 1
    ensures NeverTwice(counts, baseRate, w)
       <==> NeverTwice(counts[..|counts| - 1], baseRate, w)
            && !(Overwhelming(counts[|counts| - 1], baseRate, w)
                 && Overwhelming(Tally(counts[..|counts| - 1]), baseRate, w))
  {
    hide Overwhelming, Tally;
    var front := counts[..|counts| - 1];
    assert forall i :: 0 <= i <= |front| ==> front[..i] == counts[..i];
    if NeverTwice(front, baseRate, w)
       && !(Overwhelming(counts[|counts| - 1], baseRate, w) && Overwhelming(Tally(front), baseRate, w)) {
      forall i | 1 <= i < |counts| && Overwhelming(counts[i], baseRate, w)
        ensures !Overwhelming(Tally(counts[..i]), baseRate, w)
      {
        assert i < |front| ==> front[i] == counts[i];
      }
    }
    if NeverTwice(counts, baseRate, w) {
      forall i | 1 <= i < |front| && Overwhelming(front[i], baseRate, w)
        ensures !Overwhelming(Tally(front[..i]), baseRate, w)
      {
        assert front[i] == counts[i];
      }
    }
  }

  /** Fusing the opinions of independent panels is one panel with all their votes, exactly when no
      overwhelming panel comes after votes that are overwhelming together. */
  lemma PoolsExactlyWhen(counts: seq<Odds>, ops: seq<Opinion>, baseRate: real, priorWeight: real)
    requires Encodes(counts, ops, baseRate, priorWeight) && ops != []
    ensures FuseAll(Cumulative, ops) == PanelOpinion(Tally(counts), baseRate, priorWeight)
       <==> NeverTwice(counts, baseRate, priorWeight)
  {
    PoolsOrCloses(counts, ops, baseRate, priorWeight);
    TallyIsNonNegative(counts);
    PanelHasOdds(Tally(counts), baseRate, priorWeight);
    OddsAreNonNegative(PanelOpinion(Tally(counts), baseRate, priorWeight).opinion,
                       Odds(Tally(counts).pro / priorWeight, Tally(counts).con / priorWeight));
    hide PanelOpinion, NeverTwice, FuseAll, HasOdds;
  }
}
