/**
 The oscillation criterion of src/iknos/trials/oscillation.py and the settling cap that
 scripts/b2_cyclic_oscillation.py reads from it: a run is still moving while some argument's
 strength has a population variance above a threshold over the last few sweeps.

 `FlatExactlyWithoutVariance` and `AlternatingVariance` are what the number means, and
 `CriterionSettleCap` returns the smallest cap from which the test stays quiet.
 `CriticalRefutationIsFlagged` holds the criterion against the engine's own limit cycle.
 */
module SettleCriterion {
  import opened GradualSemantics
  import opened Qbaf
  import opened Confidence
  import opened Oscillation

  function Total(xs: seq<real>): real {
    if xs == [] then 0.0 else Total(xs[..|xs| - 1]) + xs[|xs| - 1]
  }

  function Mean(xs: seq<real>): real
    requires xs != []
  {
    Total(xs) / |xs| as real
  }

  function Product(x: real, y: real): real {
    x * y
  }

  function Squared(x: real): real {
    Product(x, x)
  }

  function Deviations(xs: seq<real>, m: real): seq<real> {
    seq(|xs|, i requires 0 <= i < |xs| => Squared(xs[i] - m))
  }

  /** The population variance. */
  function Variance(xs: seq<real>): real
    requires xs != []
  {
    Mean(Deviations(xs, Mean(xs)))
  }

  /** One argument's strengths over the last `window` of the first `k` states. */
  function Tail(trajectory: seq<Strengths>, k: nat, window: nat, a: ArgId): seq<real>
    requires window <= k <= |trajectory|
  {
    seq(window, i requires 0 <= i < window => At(trajectory[k - window + i], a))
  }

  /** Some argument still moves: its tail varies by more than the threshold. */
  ghost predicate Oscillating(trajectory: seq<Strengths>, arguments: set<ArgId>, k: nat, window: nat, epsilon: real)
    requires 1 <= window <= k <= |trajectory|
  {
    exists a :: a in arguments && Variance(Tail(trajectory, k, window, a)) > epsilon
  }

  method IsOscillating(trajectory: seq<Strengths>, arguments: set<ArgId>, k: nat, window: nat, epsilon: real)
    returns (moving: bool)
    requires 1 <= window <= k <= |trajectory|
    ensures moving <==> Oscillating(trajectory, arguments, k, window, epsilon)
  {
    hide Variance;
    var todo := arguments;
    while todo != {}
      invariant todo <= arguments
      invariant forall a :: a in arguments - todo ==> Variance(Tail(trajectory, k, window, a)) <= epsilon
      decreases todo
    {
      var a :| a in todo;
      todo := todo - {a};
      if Variance(Tail(trajectory, k, window, a)) > epsilon {
        return true;
      }
    }
    moving := false;
  }

  /** The smallest cap from which the criterion reads settled and stays settled to the horizon. */
  method CriterionSettleCap(trajectory: seq<Strengths>, arguments: set<ArgId>, window: nat, epsilon: real)
    returns (settledFrom: int)
    requires window >= 1
    ensures settledFrom == -1 <==>
              |trajectory| < window || Oscillating(trajectory, arguments, |trajectory|, window, epsilon)
    ensures settledFrom != -1 ==>
              && window <= settledFrom <= |trajectory|
              && (forall k :: settledFrom <= k <= |trajectory| ==> !Oscillating(trajectory, arguments, k, window, epsilon))
              && (settledFrom > window ==> Oscillating(trajectory, arguments, settledFrom - 1, window, epsilon))
  {
    hide Oscillating;
    settledFrom := -1;
    var k := window;
    while k <= |trajectory|
      invariant window <= k && (k <= |trajectory| + 1 || k == window)
      invariant settledFrom == -1 <==> k == window || Oscillating(trajectory, arguments, k - 1, window, epsilon)
      invariant settledFrom != -1 ==>
                  && window <= settledFrom < k
                  && (forall i :: settledFrom <= i < k ==> !Oscillating(trajectory, arguments, i, window, epsilon))
                  && (settledFrom > window ==> Oscillating(trajectory, arguments, settledFrom - 1, window, epsilon))
    {
      var moving := IsOscillating(trajectory, arguments, k, window, epsilon);
      if moving {
        settledFrom := -1;
      } else if settledFrom == -1 {
        settledFrom := k;
      }
      k := k + 1;
    }
  }

  // ---------------------------------------------------------------- what the variance means

  lemma {:induction false} TotalOfConstant(xs: seq<real>, c: real)
    requires forall i :: 0 <= i < |xs| ==> xs[i] == c
    ensures Total(xs) == c * |xs| as real
  {
    if xs != [] {
      TotalOfConstant(xs[..|xs| - 1], c);
      assert c * |xs| as real == c * (|xs| - 1) as real + c;
    }
  }

  lemma MeanOfConstant(xs: seq<real>, c: real)
    requires xs != [] && forall i :: 0 <= i < |xs| ==> xs[i] == c
    ensures Mean(xs) == c
  {
    TotalOfConstant(xs, c);
    Quotient(c, |xs| as real);
  }

  lemma Quotient(c: real, n: real)
    requires n > 0.0
    ensures (c * n) / n == c
  {
  }

  lemma {:induction false} TotalOfNonNegative(xs: seq<real>)
    requires forall i :: 0 <= i < |xs| ==> xs[i] >= 0.0
    ensures Total(xs) >= 0.0 && (Total(xs) == 0.0 ==> forall i :: 0 <= i < |xs| ==> xs[i] == 0.0)
  {
    if xs != [] {
      TotalOfNonNegative(xs[..|xs| - 1]);
    }
  }

  lemma SquaresAre(x: real)
    ensures Squared(x) >= 0.0 && (Squared(x) == 0.0 <==> x == 0.0)
  {
    hide Squared;
    ZeroSquare();
    if x > 0.0 {
      PositiveSquare(x);
    } else if x < 0.0 {
      NegativeSquare(x);
    }
  }

  lemma ZeroSquare()
    ensures Squared(0.0) == 0.0
  {
  }

  lemma PositiveProduct(x: real, y: real)
    requires x > 0.0 && y > 0.0
    ensures Product(x, y) > 0.0
  {
  }

  lemma NegativeProduct(x: real, y: real)
    requires x < 0.0 && y < 0.0
    ensures Product(x, y) > 0.0
  {
  }

  lemma PositiveSquare(y: real)
    requires y > 0.0
    ensures Squared(y) > 0.0
  {
    hide Product;
    PositiveProduct(y, y);
  }

  lemma NegativeSquare(y: real)
    requires y < 0.0
    ensures Squared(y) > 0.0
  {
    hide Product;
    NegativeProduct(y, y);
  }

  /** The variance is never negative, and zero exactly when nothing moved over the window. */
  lemma FlatExactlyWithoutVariance(xs: seq<real>)
    requires xs != []
    ensures Variance(xs) >= 0.0
    ensures Variance(xs) == 0.0 <==> forall i :: 0 <= i < |xs| ==> xs[i] == xs[0]
  {
    hide Total, Squared, Mean;
    var m := Mean(xs);
    var ds := Deviations(xs, m);
    forall i | 0 <= i < |xs|
      ensures ds[i] >= 0.0 && (ds[i] == 0.0 <==> xs[i] == m)
    {
      SquaresAre(xs[i] - m);
    }
    TotalOfNonNegative(ds);
    MeanIsZero(ds);
    if forall i :: 0 <= i < |xs| ==> xs[i] == xs[0] {
      MeanOfConstant(xs, xs[0]);
      MeanOfConstant(ds, 0.0);
    } else {
      var i :| 0 <= i < |xs| && xs[i] != xs[0];
      assert ds[0] != 0.0 || ds[i] != 0.0;
    }
  }

  lemma MeanIsZero(xs: seq<real>)
    requires xs != [] && Total(xs) >= 0.0
    ensures Mean(xs) >= 0.0 && (Mean(xs) == 0.0 <==> Total(xs) == 0.0)
  {
    assert Mean(xs) * |xs| as real == Total(xs);
  }

  /** At threshold zero the criterion reads settled exactly when no argument moved over the window. */
  lemma QuietAtZeroExactlyWhenFlat(trajectory: seq<Strengths>, arguments: set<ArgId>, k: nat, window: nat)
    requires 1 <= window <= k <= |trajectory|
    ensures !Oscillating(trajectory, arguments, k, window, 0.0)
       <==> forall a, i :: a in arguments && k - window <= i < k ==> At(trajectory[i], a) == At(trajectory[k - window], a)
  {
    hide Variance;
    forall a
      ensures Variance(Tail(trajectory, k, window, a)) <= 0.0
         <==> forall i :: k - window <= i < k ==> At(trajectory[i], a) == At(trajectory[k - window], a)
    {
      var xs := Tail(trajectory, k, window, a);
      FlatExactlyWithoutVariance(xs);
      assert forall i :: k - window <= i < k ==> At(trajectory[i], a) == xs[i - (k - window)];
      if Variance(xs) <= 0.0 {
        forall i | k - window <= i < k
          ensures At(trajectory[i], a) == At(trajectory[k - window], a)
        {
          assert xs[i - (k - window)] == xs[0];
        }
      }
    }
  }

  // ---------------------------------------------------------------- a limit cycle of period two

  ghost predicate Switches(xs: seq<real>, u: real, v: real) {
    forall i :: 0 <= i < |xs| ==> xs[i] == if i % 2 == 0 then u else v
  }

  lemma {:induction false} TotalOfAlternating(xs: seq<real>, u: real, v: real, h: nat)
    requires |xs| == 2 * h && Switches(xs, u, v)
    ensures Total(xs) == Product(u + v, h as real)
  {
    if h > 0 {
      var n := |xs| - 1;
      TotalOfAlternating(xs[..n - 1], u, v, h - 1);
      assert xs[..n][..n - 1] == xs[..n - 1];
      OneMorePair(u + v, h);
      hide Product;
    } else {
      NoPair(u + v);
    }
  }

  lemma OneMorePair(x: real, h: nat)
    requires h > 0
    ensures Product(x, h as real) == Product(x, (h - 1) as real) + x
  {
    assert h as real == (h - 1) as real + 1.0;
  }

  lemma NoPair(x: real)
    ensures Product(x, 0 as real) == 0.0
  {
  }

  /** A strength that switches between two values, over an even window, has the square of half their
      distance for a variance. */
  lemma AlternatingVariance(xs: seq<real>, u: real, v: real, h: nat)
    requires h > 0 && |xs| == 2 * h && Switches(xs, u, v)
    ensures Variance(xs) == Squared((u - v) / 2.0)
  {
    hide Product, Squared, Total;
    TotalOfAlternating(xs, u, v, h);
    HalfWay(u + v, h);
    var m := (u + v) / 2.0;
    assert Mean(xs) == m;
    hide Mean;
    var ds := Deviations(xs, m);
    forall i | 0 <= i < |xs|
      ensures ds[i] == Squared((u - v) / 2.0)
    {
      OtherHalf(u, v);
      assert xs[i] - m == if i % 2 == 0 then (u - v) / 2.0 else (v - u) / 2.0;
    }
    MeanOfConstant(ds, Squared((u - v) / 2.0));
  }

  lemma HalfWay(x: real, h: nat)
    requires h > 0
    ensures Product(x, h as real) / (2 * h) as real == x / 2.0
  {
    var n := h as real;
    assert (2 * h) as real == 2.0 * n;
    assert x * n == (x / 2.0) * (2.0 * n);
    Quotient(x / 2.0, 2.0 * n);
  }

  lemma OtherHalf(u: real, v: real)
    ensures Squared((v - u) / 2.0) == Squared((u - v) / 2.0)
  {
    var x := (u - v) / 2.0;
    assert (v - u) / 2.0 == -x;
  }

  /** The engine's critical refutation loop, watched over any even window, is flagged exactly at the
      thresholds below one quarter. */
  lemma CriticalRefutationIsFlagged(a: ArgId, b: ArgId, trajectory: seq<Strengths>, k: nat, h: nat, epsilon: real)
    requires a != b && 1 <= h && 2 * h <= k <= |trajectory|
    requires forall i :: 0 <= i < |trajectory| ==> trajectory[i] == TwoCycle(a, b, true, 1.0, 1.0, DF_QUAD).Iterate(i + 1)
    ensures Oscillating(trajectory, {a, b}, k, 2 * h, epsilon) <==> epsilon < 1.0 / 4.0
  {
    hide Variance;
    forall c | c in {a, b}
      ensures Variance(Tail(trajectory, k, 2 * h, c)) == 1.0 / 4.0
    {
      CriticalTail(a, b, trajectory, k, h, c);
    }
    assert a in {a, b};
  }

  lemma CriticalTail(a: ArgId, b: ArgId, trajectory: seq<Strengths>, k: nat, h: nat, c: ArgId)
    requires a != b && 1 <= h && 2 * h <= k <= |trajectory| && c in {a, b}
    requires forall i :: 0 <= i < |trajectory| ==> trajectory[i] == TwoCycle(a, b, true, 1.0, 1.0, DF_QUAD).Iterate(i + 1)
    ensures Variance(Tail(trajectory, k, 2 * h, c)) == 1.0 / 4.0
  {
    hide *;
    var xs := Tail(trajectory, k, 2 * h, c);
    var u := if k % 2 == 0 then 0.0 else 1.0;
    TailSize(trajectory, k, 2 * h, c);
    forall i | 0 <= i < 2 * h
      ensures xs[i] == if i % 2 == 0 then u else 1.0 - u
    {
      TailAt(trajectory, k, 2 * h, c, i);
      CriticalAt(a, b, c, k - 2 * h + i + 1);
      Parity(k, h, i);
    }
    SwitchesIs(xs, u, 1.0 - u);
    AlternatingVariance(xs, u, 1.0 - u, h);
    QuarterOf(u - (1.0 - u));
  }

  lemma TailSize(trajectory: seq<Strengths>, k: nat, window: nat, a: ArgId)
    requires window <= k <= |trajectory|
    ensures |Tail(trajectory, k, window, a)| == window
  {
  }

  lemma TailAt(trajectory: seq<Strengths>, k: nat, window: nat, a: ArgId, i: nat)
    requires window <= k <= |trajectory| && i < window
    ensures |Tail(trajectory, k, window, a)| == window
    ensures Tail(trajectory, k, window, a)[i] == At(trajectory[k - window + i], a)
  {
  }

  lemma SwitchesIs(xs: seq<real>, u: real, v: real)
    ensures Switches(xs, u, v) <==> forall i :: 0 <= i < |xs| ==> xs[i] == if i % 2 == 0 then u else v
  {
  }

  lemma Parity(k: nat, h: nat, i: nat)
    requires 2 * h <= k
    ensures (k - 2 * h + i + 1) % 2 == 0 <==> (k % 2 == 0) != (i % 2 == 0)
  {
  }

  lemma CriticalAt(a: ArgId, b: ArgId, c: ArgId, n: nat)
    requires a != b && c in {a, b}
    ensures At(TwoCycle(a, b, true, 1.0, 1.0, DF_QUAD).Iterate(n), c) == if n % 2 == 0 then 1.0 else 0.0
  {
    assert Unit(1.0);
    assert At(Both(a, b, Refuted(1.0, 1.0, n)), c) == Refuted(1.0, 1.0, n);
    hide *;
    RefutationIterates(a, b, 1.0, 1.0, n);
    Alternates(n);
  }

  lemma QuarterOf(x: real)
    requires x == 1.0 || x == -1.0
    ensures Squared(x / 2.0) == 1.0 / 4.0
  {
    assert Product(0.5, 0.5) == 0.25 && Product(-0.5, -0.5) == 0.25;
  }
}
