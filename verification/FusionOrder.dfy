/**
 When the order of a fold of opinions shows. src/iknos/core/subjective_logic.py (line 311) takes
 commutativity of both fusions to be enough.

 Averaging counts each opinion half as much as the next, and two dogmatic opinions are averaged by
 either fusion, while one dogmatic opinion absorbs all that are not.
 `FoldIgnoresOrderExactlyWhen` is the exact condition that results, for both fusions, over opinions
 on one proposition whose masses sum to one and whose uncertainty is zero or above the tolerance.
 */
module FusionOrder {
  import opened Sets
  import opened SubjectiveLogic
  import opened OpinionFusion

  ghost predicate IgnoresOrder(fusion: Fusion, ops: seq<Opinion>) {
    forall ops' :: multiset(ops) == multiset(ops') ==> FuseAll(fusion, ops') == FuseAll(fusion, ops)
  }

  // ---------------------------------------------------------------- opinions of one kind

  /** All open, or all closed. */
  ghost predicate Alike(ops: seq<Opinion>, baseRate: real) {
    AllOpen(ops, baseRate) || AllClosed(ops, baseRate)
  }

  /** The odds of an open opinion, the masses of a closed one. */
  function Reading(o: Opinion): Odds {
    if o.uncertainty > 0.0 then OddsOf(o) else Odds(o.belief, o.disbelief)
  }

  /** Every reading is averaged with the mean of those before it. */
  function MeanReading(ops: seq<Opinion>): Odds
    requires ops != []
  {
    var last := Reading(ops[|ops| - 1]);
    if |ops| == 1 then last else MeanReading(ops[..|ops| - 1]).Plus(last).Half()
  }

  ghost predicate Reads(o: Opinion, reading: Odds, closed: bool) {
    if closed then o.Exact() && o.uncertainty == 0.0 && reading == Odds(o.belief, o.disbelief)
    else HasOdds(o, reading)
  }

  lemma ReadingOf(o: Opinion, ops: seq<Opinion>, baseRate: real)
    requires Alike(ops, baseRate) && o in ops
    ensures Reads(o, Reading(o), AllClosed(ops, baseRate)) && o.baseRate == baseRate
  {
    if o.uncertainty > 0.0 {
      ExactHasOdds(o);
    }
  }

  /** Equal readings of one kind are one opinion. */
  lemma OneReading(o: Opinion, o': Opinion, x: Odds, y: Odds, closed: bool)
    requires Reads(o, x, closed) && Reads(o', y, closed) && o.baseRate == o'.baseRate
    ensures o == o' <==> x == y
  {
    if !closed {
      hide HasOdds;
      if o == o' {
        OddsAreUnique(o, x, y);
      } else if x == y {
        SameOddsSameOpinion(o, o', x);
      }
    }
  }

  lemma FrontAlike(ops: seq<Opinion>, baseRate: real)
    requires Alike(ops, baseRate) && |ops| > 1
    ensures Alike(ops[..|ops| - 1], baseRate)
    ensures AllClosed(ops[..|ops| - 1], baseRate) <==> AllClosed(ops, baseRate)
  {
    var front := ops[..|ops| - 1];
    assert front[0] in front && front[0] in ops;
  }

  /** The averaging fold of opinions of one kind is the mean of their readings, and so is any fold of
      closed ones. Nothing is refused. */
  lemma {:induction false} FoldReads(fusion: Fusion, ops: seq<Opinion>, baseRate: real)
    requires Alike(ops, baseRate) && ops != [] && (fusion == Averaging || AllClosed(ops, baseRate))
    ensures var r := FuseAll(fusion, ops);
            r.Made? && r.opinion.baseRate == baseRate && Reads(r.opinion, MeanReading(ops), AllClosed(ops, baseRate))
  {
    var front, last := ops[..|ops| - 1], ops[|ops| - 1];
    ReadingOf(last, ops, baseRate);
    if |ops| > 1 {
      FrontAlike(ops, baseRate);
      var closed := AllClosed(ops, baseRate);
      assert closed || !Dogmatic(last);
      hide FusePair, HasOdds, Reading, AllOpen, AllClosed;
      FoldReads(fusion, front, baseRate);
      var acc := FuseAll(fusion, front).opinion;
      if closed {
        ExactFusion(fusion, acc, last);
        DogmaticAverage(fusion, acc, last);
      } else {
        FusingFusesOdds(fusion, acc, last, MeanReading(front), Reading(last));
      }
    }
  }

  lemma SameFold(fusion: Fusion, ops: seq<Opinion>, ops': seq<Opinion>, baseRate: real)
    requires Alike(ops, baseRate) && ops != [] && (fusion == Averaging || AllClosed(ops, baseRate))
    requires multiset(ops) == multiset(ops')
    ensures ops' != [] && Alike(ops', baseRate)
    ensures FuseAll(fusion, ops) == FuseAll(fusion, ops') <==> MeanReading(ops) == MeanReading(ops')
  {
    Reordered(ops, ops');
    assert AllClosed(ops, baseRate) <==> AllClosed(ops', baseRate);
    FoldReads(fusion, ops, baseRate);
    FoldReads(fusion, ops', baseRate);
    hide FuseAll, MeanReading, Reads;
    OneReading(FuseAll(fusion, ops).opinion, FuseAll(fusion, ops').opinion, MeanReading(ops), MeanReading(ops'),
               AllClosed(ops, baseRate));
  }

  // ---------------------------------------------------------------- when the mean ignores the order

  lemma MeanOneMore(ops: seq<Opinion>, o: Opinion)
    requires ops != []
    ensures MeanReading(ops + [o]) == MeanReading(ops).Plus(Reading(o)).Half()
  {
    hide Reading;
    assert (ops + [o])[..|ops|] == ops;
  }

  /** Copies of one opinion have its reading for their mean. */
  lemma {:induction false} MeanOfCopies(ops: seq<Opinion>, o: Opinion)
    requires ops != [] && forall i :: 0 <= i < |ops| ==> ops[i] == o
    ensures MeanReading(ops) == Reading(o)
  {
    hide Reading;
    if |ops| > 1 {
      MeanOfCopies(ops[..|ops| - 1], o);
    }
  }

  lemma LaterWeighsMore(f: Odds, x: Odds, y: Odds)
    requires x != y
    ensures f.Plus(x).Half().Plus(y).Half() != f.Plus(y).Half().Plus(x).Half()
  {
  }

  /** The last of three or more opinions weighs more than the one before it. */
  lemma SwappingTheLastShows(rest: seq<Opinion>, o: Opinion, o': Opinion)
    requires rest != [] && Reading(o) != Reading(o')
    ensures MeanReading(rest + [o] + [o']) != MeanReading(rest + [o'] + [o])
  {
    hide Reading, MeanReading;
    LaterWeighsMore(MeanReading(rest), Reading(o), Reading(o'));
    MeanOneMore(rest, o);
    MeanOneMore(rest + [o], o');
    MeanOneMore(rest, o');
    MeanOneMore(rest + [o'], o);
  }

  lemma TwoOfTwo<T>(s: seq<T>, t: seq<T>)
    requires |s| == |t| == 2 && multiset(s) == multiset(t)
    ensures t == s || t == [s[1], s[0]]
  {
    assert s == [s[0]] + [s[1]];
    var a, b := FindLast(t, [s[0]], s[1]);
    assert |a| + |b| == 1 && (a + b)[0] in multiset(a + b);
    assert (a + b)[0] == s[0];
  }

  lemma TwoHaveOneMean(ops: seq<Opinion>, ops': seq<Opinion>)
    requires |ops| == |ops'| == 2 && multiset(ops) == multiset(ops')
    ensures MeanReading(ops) == MeanReading(ops')
  {
    hide Reading, MeanReading;
    assert ops == [ops[0]] + [ops[1]] && ops' == [ops'[0]] + [ops'[1]];
    TwoOfTwo(ops, ops');
    MeanOneMore([ops[0]], ops[1]);
    MeanOneMore([ops'[0]], ops'[1]);
    MeanOfCopies([ops[0]], ops[0]);
    MeanOfCopies([ops'[0]], ops'[0]);
  }

  lemma CopiesHaveOneMean(ops: seq<Opinion>, ops': seq<Opinion>)
    requires ops != [] && multiset(ops) == multiset(ops') && forall o :: o in ops ==> o == ops[0]
    ensures ops' != [] && MeanReading(ops) == MeanReading(ops')
  {
    hide MeanReading;
    Reordered(ops, ops');
    assert forall i :: 0 <= i < |ops| ==> ops[i] in ops;
    MeanOfCopies(ops, ops[0]);
    forall i | 0 <= i < |ops'|
      ensures ops'[i] == ops[0]
    {
      assert ops'[i] in ops;
    }
    MeanOfCopies(ops', ops[0]);
  }

  /** Opinions of one kind are averaged alike in every order exactly if they are at most two or all
      equal. */
  lemma AveragingIgnoresOrderExactlyWhen(fusion: Fusion, ops: seq<Opinion>, baseRate: real)
    requires Alike(ops, baseRate) && ops != [] && (fusion == Averaging || AllClosed(ops, baseRate))
    ensures IgnoresOrder(fusion, ops) <==> |ops| <= 2 || forall o :: o in ops ==> o == ops[0]
  {
    hide FuseAll, MeanReading, Reading, Alike, AllClosed;
    var copies := forall o :: o in ops ==> o == ops[0];
    if |ops| <= 2 || copies {
      forall ops' | multiset(ops) == multiset(ops')
        ensures FuseAll(fusion, ops') == FuseAll(fusion, ops)
      {
        Reordered(ops, ops');
        if copies {
          CopiesHaveOneMean(ops, ops');
        } else {
          TwoHaveOneMean(ops, ops');
        }
        SameFold(fusion, ops, ops', baseRate);
      }
    } else {
      var o' :| o' in ops && o' != ops[0];
      var rest := PutBothLast(ops, ops[0], o');
      ReadingOf(ops[0], ops, baseRate);
      ReadingOf(o', ops, baseRate);
      OneReading(ops[0], o', Reading(ops[0]), Reading(o'), AllClosed(ops, baseRate));
      SwappingTheLastShows(rest, ops[0], o');
      SameFold(fusion, ops, rest + [ops[0]] + [o'], baseRate);
      SameFold(fusion, ops, rest + [o'] + [ops[0]], baseRate);
    }
  }

  // ---------------------------------------------------------------- open and closed together

  /** Opinions on one proposition: masses that sum to one, and an uncertainty that is zero or above
      the tolerance. */
  ghost predicate Clear(ops: seq<Opinion>, baseRate: real) {
    forall o :: o in ops ==> o.Exact() && o.baseRate == baseRate && (o.uncertainty == 0.0 || !Dogmatic(o))
  }

  ghost function ClosedOf(ops: seq<Opinion>): seq<Opinion> {
    if ops == [] then []
    else
      var last := ops[|ops| - 1];
      ClosedOf(ops[..|ops| - 1]) + if last.uncertainty == 0.0 then [last] else []
  }

  ghost function OpenOf(ops: seq<Opinion>): seq<Opinion> {
    if ops == [] then []
    else
      var last := ops[|ops| - 1];
      OpenOf(ops[..|ops| - 1]) + if last.uncertainty == 0.0 then [] else [last]
  }

  lemma {:induction false} Parted(ops: seq<Opinion>, baseRate: real)
    requires Clear(ops, baseRate)
    ensures AllClosed(ClosedOf(ops), baseRate) && AllOpen(OpenOf(ops), baseRate)
    ensures ClosedOf(ops) == [] ==> OpenOf(ops) == ops
    ensures OpenOf(ops) == [] ==> ClosedOf(ops) == ops
  {
    if ops != [] {
      var front, last := ops[..|ops| - 1], ops[|ops| - 1];
      assert ops == front + [last];
      Parted(front, baseRate);
    }
  }

  lemma {:induction false} PartsAreAll(ops: seq<Opinion>)
    ensures multiset(ops) == multiset(OpenOf(ops)) + multiset(ClosedOf(ops))
  {
    if ops != [] {
      assert ops == ops[..|ops| - 1] + [ops[|ops| - 1]];
      PartsAreAll(ops[..|ops| - 1]);
    }
  }

  lemma {:induction false} PartsOfSum(a: seq<Opinion>, b: seq<Opinion>)
    ensures ClosedOf(a + b) == ClosedOf(a) + ClosedOf(b) && OpenOf(a + b) == OpenOf(a) + OpenOf(b)
  {
    if b == [] {
      assert a + b == a;
    } else {
      var front, last := b[..|b| - 1], b[|b| - 1];
      assert (a + b)[..|a + b| - 1] == a + front;
      PartsOfSum(a, front);
    }
  }

  lemma {:induction false} PartsReorder(ops: seq<Opinion>, ops': seq<Opinion>)
    requires multiset(ops) == multiset(ops')
    ensures multiset(ClosedOf(ops)) == multiset(ClosedOf(ops')) && multiset(OpenOf(ops)) == multiset(OpenOf(ops'))
  {
    Reordered(ops, ops');
    if ops != [] {
      var front, last := ops[..|ops| - 1], ops[|ops| - 1];
      assert ops == front + [last];
      var a, b := FindLast(ops', front, last);
      PartsReorder(front, a + b);
      PartsOfSum(a, b);
      PartsOfSum(a + [last], b);
      PartsOfSum(a, [last]);
      PartsOfSum(front, [last]);
    }
  }

  // ---------------------------------------------------------------- what a closed opinion absorbs

  /** Fused together the open opinions still leave more open than the tolerance. */
  ghost predicate StaysOpen(fusion: Fusion, open: seq<Opinion>) {
    || fusion == Averaging || open == []
    || (FuseAll(Cumulative, open).Made? && !Dogmatic(FuseAll(Cumulative, open).opinion))
  }

  /** Averaging open opinions never gets below the tolerance. */
  lemma {:induction false} AveragedStaysOpen(ops: seq<Opinion>, baseRate: real)
    requires AllOpen(ops, baseRate) && ops != []
    ensures var r := FuseAll(Averaging, ops); r.Made? && !Dogmatic(r.opinion) && r.opinion.baseRate == baseRate
  {
    FoldReads(Averaging, ops, baseRate);
    if |ops| > 1 {
      var front, last := ops[..|ops| - 1], ops[|ops| - 1];
      AveragedStaysOpen(front, baseRate);
      assert !Dogmatic(last);
      hide FusePair, Reads;
      WhatFusionLeavesOpen(FuseAll(Averaging, front).opinion, last);
    }
  }

  lemma FoldStaysOpen(fusion: Fusion, ops: seq<Opinion>, baseRate: real)
    requires AllOpen(ops, baseRate) && ops != [] && StaysOpen(fusion, ops)
    ensures var r := FuseAll(fusion, ops); r.Made? && !Dogmatic(r.opinion) && r.opinion.baseRate == baseRate
  {
    hide FuseAll, HasOdds;
    if fusion == Averaging {
      AveragedStaysOpen(ops, baseRate);
    } else {
      CumulativeFoldAdds(ops, baseRate);
    }
  }

  /** One opinion fewer leaves more open. */
  lemma FewerStayOpen(fusion: Fusion, ops: seq<Opinion>, o: Opinion)
    requires StaysOpen(fusion, ops + [o])
    ensures StaysOpen(fusion, ops)
  {
    if fusion == Cumulative && ops != [] {
      FuseOneMore(fusion, ops, o);
      hide FuseAll, FusePair;
      WhatFusionLeavesOpen(FuseAll(fusion, ops).opinion, o);
    }
  }

  /** Open opinions leave no trace beside a closed one, as long as they do not close together. */
  lemma {:induction false} ClosedDecide(fusion: Fusion, ops: seq<Opinion>, baseRate: real)
    requires Clear(ops, baseRate) && ClosedOf(ops) != [] && StaysOpen(fusion, OpenOf(ops))
    ensures FuseAll(fusion, ops) == FuseAll(fusion, ClosedOf(ops))
  {
    var front, last := ops[..|ops| - 1], ops[|ops| - 1];
    assert ops == front + [last];
    LastIsClear(front, last, baseRate);
    hide *;
    PartsOfSum(front, [last]);
    PartsOfOne(last);
    Parted(front, baseRate);
    if front == [] {
      assert ops == [last] && ClosedOf(ops) == [last] by { NoParts(last); }
    } else if last.uncertainty == 0.0 {
      if ClosedOf(front) == [] {
        assert OpenOf(ops) == front;
        ClosedAfterOpen(fusion, front, last, baseRate);
      } else {
        assert OpenOf(ops) == OpenOf(front);
        ClosedDecide(fusion, front, baseRate);
        FuseOneMore(fusion, front, last);
        FuseOneMore(fusion, ClosedOf(front), last);
      }
    } else {
      assert ClosedOf(ops) == ClosedOf(front);
      FewerStayOpen(fusion, OpenOf(front), last);
      ClosedDecide(fusion, front, baseRate);
      OpenAfterClosed(fusion, front, last, baseRate);
    }
  }

  lemma LastIsClear(front: seq<Opinion>, last: Opinion, baseRate: real)
    requires Clear(front + [last], baseRate)
    ensures Clear(front, baseRate)
    ensures last.Exact() && last.baseRate == baseRate && (last.uncertainty == 0.0 || !Dogmatic(last))
  {
    assert last in front + [last];
    assert forall o :: o in front ==> o in front + [last];
  }

  lemma NoParts(last: Opinion)
    ensures ClosedOf([]) == []
  {
  }

  /** A closed opinion replaces the open ones before it. */
  lemma ClosedAfterOpen(fusion: Fusion, open: seq<Opinion>, d: Opinion, baseRate: real)
    requires AllOpen(open, baseRate) && open != [] && StaysOpen(fusion, open)
    requires d.uncertainty == 0.0 && d.baseRate == baseRate
    ensures FuseAll(fusion, open + [d]) == Made(d) == FuseAll(fusion, [d])
  {
    hide FuseAll, FusePair, StaysOpen, AllOpen;
    FoldStaysOpen(fusion, open, baseRate);
    FuseOneMore(fusion, open, d);
    ClosedAbsorbs(fusion, d, FuseAll(fusion, open).opinion);
    FuseOfOne(fusion, d);
  }

  lemma FuseOfOne(fusion: Fusion, o: Opinion)
    ensures FuseAll(fusion, [o]) == Made(o)
  {
  }

  /** An open opinion after closed ones changes nothing. */
  lemma OpenAfterClosed(fusion: Fusion, front: seq<Opinion>, last: Opinion, baseRate: real)
    requires AllClosed(ClosedOf(front), baseRate) && ClosedOf(front) != []
    requires front != [] && FuseAll(fusion, front) == FuseAll(fusion, ClosedOf(front))
    requires last.baseRate == baseRate && !Dogmatic(last)
    ensures FuseAll(fusion, front + [last]) == FuseAll(fusion, front)
  {
    hide FuseAll, FusePair, ClosedOf, AllClosed;
    ClosedFold(fusion, ClosedOf(front), baseRate);
    FuseOneMore(fusion, front, last);
    ClosedAbsorbs(fusion, FuseAll(fusion, front).opinion, last);
  }

  lemma PartsOfOne(o: Opinion)
    ensures ClosedOf([o]) == (if o.uncertainty == 0.0 then [o] else [])
    ensures OpenOf([o]) == (if o.uncertainty == 0.0 then [] else [o])
  {
    assert [o][..0] == [];
    assert ClosedOf([o][..0]) == [] && OpenOf([o][..0]) == [];
  }

  lemma ClosedFold(fusion: Fusion, ops: seq<Opinion>, baseRate: real)
    requires AllClosed(ops, baseRate) && ops != []
    ensures var r := FuseAll(fusion, ops);
            r.Made? && r.opinion.uncertainty == 0.0 && r.opinion.Exact() && r.opinion.baseRate == baseRate
  {
    FoldReads(fusion, ops, baseRate);
  }

  // ---------------------------------------------------------------- what closes together

  /** Refused, or nothing left open and the masses short of one. */
  ghost predicate FallsShort(r: Result) {
    r.Made? ==> r.opinion.uncertainty == 0.0 && r.opinion.belief + r.opinion.disbelief < 1.0
  }

  /** What fell short stays short. */
  lemma {:induction false} StaysShort(fusion: Fusion, ops: seq<Opinion>, closed: seq<Opinion>, baseRate: real)
    requires ops != [] && FallsShort(FuseAll(fusion, ops)) && AllClosed(closed, baseRate)
    ensures FallsShort(FuseAll(fusion, ops + closed))
  {
    hide FusePair;
    if closed == [] {
      assert ops + closed == ops;
    } else {
      var front, last := closed[..|closed| - 1], closed[|closed| - 1];
      assert ops + closed == ops + front + [last] && last in closed;
      StaysShort(fusion, ops, front, baseRate);
      FuseOneMore(fusion, ops + front, last);
      var acc := FuseAll(fusion, ops + front);
      if acc.Made? && FusePair(fusion, acc.opinion, last).Made? {
        ShortAverage(fusion, acc.opinion, last);
      }
    }
  }

  lemma ShortAverage(fusion: Fusion, a: Opinion, b: Opinion)
    requires Dogmatic(a) && a.belief + a.disbelief < 1.0 && b.Exact() && b.uncertainty == 0.0
    ensures FallsShort(FusePair(fusion, a, b))
  {
  }

  /** If the open opinions close together, the order shows: put first they are averaged with a
      closed one, put last they are absorbed. */
  lemma ClosingShows(ops: seq<Opinion>, baseRate: real)
    requires Clear(ops, baseRate) && ClosedOf(ops) != [] && !StaysOpen(Cumulative, OpenOf(ops))
    ensures !IgnoresOrder(Cumulative, ops)
  {
    var open, closed := OpenOf(ops), ClosedOf(ops);
    Parted(ops, baseRate);
    PartsAreAll(ops);
    hide OpenOf, ClosedOf, FusePair, FuseAll;
    var d, rest := closed[0], closed[1..];
    assert closed == [d] + rest && d in closed;
    OpenFirst(d, open, rest, baseRate);
    ClosedFirst(d, open, rest, baseRate);
    EitherEnd(ops, d, open, rest);
    hide *;
    ShortIsNotExact(FuseAll(Cumulative, open + [d] + rest), FuseAll(Cumulative, [d] + open + rest));
    TwoOrders(Cumulative, ops, open + [d] + rest, [d] + open + rest);
  }

  lemma ShortIsNotExact(r: Result, r': Result)
    requires FallsShort(r) && r'.Made? && r'.opinion.Exact()
    ensures r != r'
  {
  }

  lemma TwoOrders(fusion: Fusion, ops: seq<Opinion>, a: seq<Opinion>, b: seq<Opinion>)
    requires multiset(ops) == multiset(a) == multiset(b) && FuseAll(fusion, a) != FuseAll(fusion, b)
    ensures !IgnoresOrder(fusion, ops)
  {
    hide FuseAll;
  }

  lemma EitherEnd(ops: seq<Opinion>, d: Opinion, open: seq<Opinion>, rest: seq<Opinion>)
    requires multiset(ops) == multiset(open) + multiset([d] + rest)
    ensures multiset(ops) == multiset(open + [d] + rest) == multiset([d] + open + rest)
  {
  }

  lemma OpenFirst(d: Opinion, open: seq<Opinion>, rest: seq<Opinion>, baseRate: real)
    requires AllClosed([d] + rest, baseRate) && AllOpen(open, baseRate) && !StaysOpen(Cumulative, open)
    ensures FallsShort(FuseAll(Cumulative, open + [d] + rest))
  {
    CumulativeFoldAdds(open, baseRate);
    OddsAreAccepted(FuseAll(Cumulative, open).opinion, TotalOdds(open, baseRate));
    OddsAreNonNegative(FuseAll(Cumulative, open).opinion, TotalOdds(open, baseRate));
    assert d in [d] + rest && AllClosed(rest, baseRate);
    hide HasOdds, FusePair, FuseAll;
    FuseOneMore(Cumulative, open, d);
    ShortAverage(Cumulative, FuseAll(Cumulative, open).opinion, d);
    StaysShort(Cumulative, open + [d], rest, baseRate);
  }

  lemma ClosedFirst(d: Opinion, open: seq<Opinion>, rest: seq<Opinion>, baseRate: real)
    requires AllClosed([d] + rest, baseRate) && AllOpen(open, baseRate)
    ensures FuseAll(Cumulative, [d] + open + rest).Made? && FuseAll(Cumulative, [d] + open + rest).opinion.Exact()
  {
    assert d in [d] + rest;
    FirstAbsorbs(d, open, baseRate);
    FirstAbsorbs(d, [], baseRate);
    assert [d] + [] == [d];
    SameTail(Cumulative, [d] + open, [d], rest);
    ClosedFold(Cumulative, [d] + rest, baseRate);
  }

  lemma {:induction false} FirstAbsorbs(d: Opinion, open: seq<Opinion>, baseRate: real)
    requires d.uncertainty == 0.0 && d.baseRate == baseRate && AllOpen(open, baseRate)
    ensures FuseAll(Cumulative, [d] + open) == Made(d)
  {
    hide FusePair;
    if open == [] {
      assert [d] + open == [d];
    } else {
      var front, last := open[..|open| - 1], open[|open| - 1];
      assert [d] + open == [d] + front + [last] && last in open;
      FirstAbsorbs(d, front, baseRate);
      FuseOneMore(Cumulative, [d] + front, last);
      ClosedAbsorbs(Cumulative, d, last);
    }
  }

  lemma {:induction false} SameTail(fusion: Fusion, a: seq<Opinion>, b: seq<Opinion>, rest: seq<Opinion>)
    requires a != [] && b != [] && FuseAll(fusion, a) == FuseAll(fusion, b)
    ensures FuseAll(fusion, a + rest) == FuseAll(fusion, b + rest)
  {
    hide FusePair;
    if rest == [] {
      assert a + rest == a && b + rest == b;
    } else {
      var front, last := rest[..|rest| - 1], rest[|rest| - 1];
      assert a + rest == a + front + [last] && b + rest == b + front + [last];
      SameTail(fusion, a, b, front);
      FuseOneMore(fusion, a + front, last);
      FuseOneMore(fusion, b + front, last);
    }
  }

  // ---------------------------------------------------------------- the boundary

  lemma StaysOpenInAnyOrder(fusion: Fusion, open: seq<Opinion>, open': seq<Opinion>, baseRate: real)
    requires AllOpen(open, baseRate) && multiset(open) == multiset(open') && StaysOpen(fusion, open)
    ensures StaysOpen(fusion, open')
  {
    Reordered(open, open');
    if open != [] {
      CumulativeIgnoresOrder(open, open', baseRate);
    }
  }

  /** Where the open opinions are absorbed, only the order of the closed ones matters. */
  lemma OnlyClosedMatter(fusion: Fusion, ops: seq<Opinion>, baseRate: real)
    requires Clear(ops, baseRate) && ClosedOf(ops) != [] && StaysOpen(fusion, OpenOf(ops))
    ensures IgnoresOrder(fusion, ops) <==> IgnoresOrder(fusion, ClosedOf(ops))
  {
    hide FuseAll, OpenOf, ClosedOf, StaysOpen;
    Parted(ops, baseRate);
    PartsAreAll(ops);
    ClosedDecide(fusion, ops, baseRate);
    if IgnoresOrder(fusion, ClosedOf(ops)) {
      forall ops' | multiset(ops) == multiset(ops')
        ensures FuseAll(fusion, ops') == FuseAll(fusion, ops)
      {
        DecidedByClosed(fusion, ops, ops', baseRate);
      }
    }
    if IgnoresOrder(fusion, ops) {
      forall closed | multiset(ClosedOf(ops)) == multiset(closed)
        ensures FuseAll(fusion, closed) == FuseAll(fusion, ClosedOf(ops))
      {
        var ops' := OpenOf(ops) + closed;
        Reordered(ClosedOf(ops), closed);
        DecidedByClosed(fusion, ops, ops', baseRate);
        PartsOfSum(OpenOf(ops), closed);
        PartsOfParts(ops, closed, baseRate);
        assert ClosedOf(ops') == closed;
      }
    }
  }

  lemma DecidedByClosed(fusion: Fusion, ops: seq<Opinion>, ops': seq<Opinion>, baseRate: real)
    requires Clear(ops, baseRate) && ClosedOf(ops) != [] && StaysOpen(fusion, OpenOf(ops))
    requires multiset(ops) == multiset(ops')
    ensures FuseAll(fusion, ops') == FuseAll(fusion, ClosedOf(ops'))
    ensures multiset(ClosedOf(ops')) == multiset(ClosedOf(ops))
  {
    hide FuseAll, OpenOf, ClosedOf, StaysOpen;
    Reordered(ops, ops');
    Parted(ops, baseRate);
    PartsReorder(ops, ops');
    Reordered(ClosedOf(ops), ClosedOf(ops'));
    StaysOpenInAnyOrder(fusion, OpenOf(ops), OpenOf(ops'), baseRate);
    ClosedDecide(fusion, ops', baseRate);
  }

  lemma PartsOfParts(ops: seq<Opinion>, closed: seq<Opinion>, baseRate: real)
    requires Clear(ops, baseRate) && AllClosed(closed, baseRate)
    ensures ClosedOf(OpenOf(ops)) == [] && ClosedOf(closed) == closed
  {
    Parted(ops, baseRate);
    AllOfOneKind(OpenOf(ops), baseRate);
    AllOfOneKind(closed, baseRate);
  }

  lemma OpenIsNotClosed(o: Opinion)
    ensures !Dogmatic(o) ==> o.uncertainty != 0.0
  {
  }

  lemma {:induction false} AllOfOneKind(ops: seq<Opinion>, baseRate: real)
    ensures AllOpen(ops, baseRate) ==> ClosedOf(ops) == []
    ensures AllClosed(ops, baseRate) ==> ClosedOf(ops) == ops
  {
    if ops != [] {
      var front, last := ops[..|ops| - 1], ops[|ops| - 1];
      assert ops == front + [last] && last in ops;
      assert forall o :: o in front ==> o in ops;
      AllOfOneKind(front, baseRate);
      hide Dogmatic;
      if AllOpen(ops, baseRate) {
        OpenIsNotClosed(last);
      }
    }
  }

  /** The order of a fold shows in no arrangement of the opinions exactly if
      - none is closed, and the fusion is cumulative or there are at most two or only copies;
      - or some are closed, of these there are at most two or only copies, and the open ones, if
        fused cumulatively, stay open together. */
  lemma FoldIgnoresOrderExactlyWhen(fusion: Fusion, ops: seq<Opinion>, baseRate: real)
    requires Clear(ops, baseRate) && ops != []
    ensures IgnoresOrder(fusion, ops)
       <==> if ClosedOf(ops) == [] then
              fusion == Cumulative || |ops| <= 2 || (forall o :: o in ops ==> o == ops[0])
            else
              && (|ClosedOf(ops)| <= 2 || forall o :: o in ClosedOf(ops) ==> o == ClosedOf(ops)[0])
              && StaysOpen(fusion, OpenOf(ops))
  {
    hide FuseAll, OpenOf, ClosedOf;
    Parted(ops, baseRate);
    if ClosedOf(ops) == [] {
      if fusion == Cumulative {
        forall ops' | multiset(ops) == multiset(ops')
          ensures FuseAll(fusion, ops') == FuseAll(fusion, ops)
        {
          CumulativeIgnoresOrder(ops, ops', baseRate);
        }
      } else {
        AveragingIgnoresOrderExactlyWhen(fusion, ops, baseRate);
      }
    } else if StaysOpen(fusion, OpenOf(ops)) {
      OnlyClosedMatter(fusion, ops, baseRate);
      AveragingIgnoresOrderExactlyWhen(fusion, ClosedOf(ops), baseRate);
    } else {
      ClosingShows(ops, baseRate);
    }
  }

  /** Three dogmatic opinions for which either order counts, under the fusion meant for independent
      judges as under the other. */
  lemma DogmaticOrderShows(fusion: Fusion)
    ensures var yes, no := Masses(1.0, 0.0, 0.0, 0.5), Masses(0.0, 1.0, 0.0, 0.5);
            yes.Accepted() && no.Accepted()
            && FuseAll(fusion, [yes] + [no] + [no]) == Made(Masses(0.25, 0.75, 0.0, 0.5))
            && FuseAll(fusion, [no] + [no] + [yes]) == Made(Masses(0.5, 0.5, 0.0, 0.5))
  {
    var yes: Opinion, no: Opinion := Masses(1.0, 0.0, 0.0, 0.5), Masses(0.0, 1.0, 0.0, 0.5);
    assert FuseAll(fusion, [yes]) == Made(yes) && FuseAll(fusion, [no]) == Made(no);
    FuseOneMore(fusion, [yes], no);
    FuseOneMore(fusion, [yes] + [no], no);
    FuseOneMore(fusion, [no], no);
    FuseOneMore(fusion, [no] + [no], yes);
  }

  /** However many opinions on one proposition are averaged, the result leaves open at least what the
      sharpest of them does. */
  lemma AveragingInventsNoCertainty(ops: seq<Opinion>, baseRate: real) returns (sharpest: Opinion)
    requires Clear(ops, baseRate) && ops != []
    ensures sharpest in ops && FuseAll(Averaging, ops).Made?
    ensures sharpest.uncertainty <= FuseAll(Averaging, ops).opinion.uncertainty
  {
    Parted(ops, baseRate);
    if ClosedOf(ops) == [] {
      sharpest := OpenInventsNoCertainty(ops, baseRate);
    } else {
      PartsAreAll(ops);
      hide FuseAll, ClosedOf, OpenOf;
      ClosedDecide(Averaging, ops, baseRate);
      ClosedFold(Averaging, ClosedOf(ops), baseRate);
      sharpest := ClosedOf(ops)[0];
      assert sharpest in multiset(ops);
    }
  }

  lemma {:induction false} OpenInventsNoCertainty(ops: seq<Opinion>, baseRate: real) returns (sharpest: Opinion)
    requires AllOpen(ops, baseRate) && ops != []
    ensures sharpest in ops && FuseAll(Averaging, ops).Made?
    ensures sharpest.uncertainty <= FuseAll(Averaging, ops).opinion.uncertainty
  {
    var last := ops[|ops| - 1];
    sharpest := last;
    AveragedStaysOpen(ops, baseRate);
    if |ops| > 1 {
      var front := ops[..|ops| - 1];
      var s := OpenInventsNoCertainty(front, baseRate);
      assert !Dogmatic(last);
      hide FusePair;
      WhatFusionLeavesOpen(FuseAll(Averaging, front).opinion, last);
      sharpest := if s.uncertainty <= last.uncertainty then s else last;
    }
  }
}
