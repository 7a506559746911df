/**
 Layer B: the confidence valuation of src/iknos/core/confidence.py.

 A node's confidence is the best, over its grounds, of a rule strength times the product of
 the body's confidences, computed by Jacobi iteration from zero over a possibly cyclic graph.
 The code bounds the iteration by |nodes| + 2 rounds and raises beyond it. The main theorem,
 `Valuate`, is that for every lawful semiring the raise is dead, the fixpoint is reached by
 round |nodes| + 1, and it is the least one.
 */
module Confidence {
  import opened TruthMaintenance

  predicate Unit(x: real) {
    0.0 <= x <= 1.0
  }

  function Max(a: real, b: real): real {
    if a >= b then a else b
  }

  ghost function Pow(b: real, k: nat): real {
    if k == 0 then 1.0 else b * Pow(b, k - 1)
  }

  /** Confidences are floats in the program; the model takes them as reals. */
  datatype Semiring = Semiring(times: (real, real) -> real, plus: (real, real) -> real, one: real, zero: real)

  function ViterbiTimes(a: real, b: real): real {
    a * b
  }

  function GodelTimes(a: real, b: real): real {
    if b < a then b else a
  }

  const VITERBI := Semiring(ViterbiTimes, Max, 1.0, 0.0)

  const GODEL := Semiring(GodelTimes, Max, 1.0, 0.0)

  ghost predicate LawsOfTwo(sr: Semiring, a: real, b: real) {
    && Unit(sr.times(a, b)) && Unit(sr.plus(a, b))
    && sr.times(a, b) == sr.times(b, a) && sr.plus(a, b) == sr.plus(b, a)
    && sr.times(sr.one, a) == a && sr.plus(sr.zero, a) == a
    && sr.plus(a, a) == a
    && sr.plus(a, sr.times(a, b)) == a
  }

  ghost predicate LawsOfThree(sr: Semiring, a: real, b: real, c: real) {
    && sr.times(sr.times(a, b), c) == sr.times(a, sr.times(b, c))
    && sr.plus(sr.plus(a, b), c) == sr.plus(a, sr.plus(b, c))
    && (a <= b ==> sr.times(a, c) <= sr.times(b, c) && sr.plus(a, c) <= sr.plus(b, c))
  }

  /** The laws the module requires of a confidence semiring: associative and commutative with
      identities, idempotent sum, absorption, and both operations monotone and closed on [0, 1]. */
  ghost predicate Lawful(sr: Semiring) {
    && sr.one == 1.0 && sr.zero == 0.0
    && (forall a, b {:trigger LawsOfTwo(sr, a, b)} | Unit(a) && Unit(b) :: LawsOfTwo(sr, a, b))
    && (forall a, b, c {:trigger LawsOfThree(sr, a, b, c)} | Unit(a) && Unit(b) && Unit(c) :: LawsOfThree(sr, a, b, c))
  }

  lemma GodelIsLawful()
    ensures Lawful(GODEL)
  {
  }

  lemma ViterbiIsLawful()
    ensures Lawful(VITERBI)
  {
    hide LawsOfTwo, LawsOfThree;
    forall a, b | Unit(a) && Unit(b)
      ensures LawsOfTwo(VITERBI, a, b)
    {
      ViterbiLawsOfTwo(a, b);
    }
    forall a, b, c | Unit(a) && Unit(b) && Unit(c)
      ensures LawsOfThree(VITERBI, a, b, c)
    {
      ViterbiLawsOfThree(a, b, c);
    }
  }

  lemma ViterbiLawsOfTwo(a: real, b: real)
    requires Unit(a) && Unit(b)
    ensures LawsOfTwo(VITERBI, a, b)
  {
    ProductInUnit(a, b);
  }

  lemma ViterbiLawsOfThree(a: real, b: real, c: real)
    requires Unit(a) && Unit(b) && Unit(c)
    ensures LawsOfThree(VITERBI, a, b, c)
  {
    ProductMonotone(a, b, c);
  }

  lemma ProductMonotone(a: real, b: real, c: real)
    requires 0.0 <= c
    ensures a <= b ==> a * c <= b * c
  {
  }

  lemma ProductInUnit(a: real, b: real)
    requires Unit(a) && Unit(b)
    ensures Unit(a * b) && a * b <= a && a * b <= b
  {
    assert a * (1.0 - b) >= 0.0 && b * (1.0 - a) >= 0.0 && a * b >= 0.0;
  }

  /** The laws leave no choice: on [0, 1] the sum is the maximum. */
  lemma PlusIsMax(sr: Semiring, a: real, b: real)
    requires Lawful(sr) && Unit(a) && Unit(b)
    ensures sr.plus(a, b) == Max(a, b)
  {
    assert LawsOfTwo(sr, a, b) && LawsOfTwo(sr, a, a) && LawsOfTwo(sr, b, b);
    assert LawsOfThree(sr, a, b, b) && LawsOfThree(sr, 0.0, a, b);
    assert LawsOfThree(sr, b, a, a) && LawsOfThree(sr, 0.0, b, a);
  }

  /** ... and the product never exceeds either factor, which is what makes cycles harmless. */
  lemma TimesBelow(sr: Semiring, a: real, b: real)
    requires Lawful(sr) && Unit(a) && Unit(b)
    ensures Unit(sr.times(a, b)) && sr.times(a, b) <= a && sr.times(a, b) <= b
  {
    assert LawsOfTwo(sr, a, b) && LawsOfTwo(sr, b, a);
    assert LawsOfThree(sr, a, 1.0, b) && LawsOfThree(sr, b, 1.0, a);
  }

  lemma TimesMonotone(sr: Semiring, a: real, b: real, a': real, b': real)
    requires Lawful(sr) && Unit(a) && Unit(b) && Unit(a') && Unit(b') && a <= a' && b <= b'
    ensures sr.times(a, b) <= sr.times(a', b')
  {
    assert LawsOfThree(sr, a, a', b) && LawsOfThree(sr, b, b', a');
    assert LawsOfTwo(sr, a', b) && LawsOfTwo(sr, a', b');
  }

  // ---------------------------------------------------------------- rule bodies

  /** Every value of `w` over `body` lies in the unit interval. */
  ghost predicate UnitOver(w: map<NodeId, real>, body: set<NodeId>) {
    body <= w.Keys && forall a :: a in body ==> Unit(w[a])
  }

  /** The product of the antecedents' confidences, one for an empty body. */
  ghost function BodyProduct(sr: Semiring, w: map<NodeId, real>, body: set<NodeId>): real
    requires body <= w.Keys
  {
    if body == {} then sr.one
    else
      var a :| a in body;
      sr.times(BodyProduct(sr, w, body - {a}), w[a])
  }

  lemma {:induction false} BodyInUnit(sr: Semiring, w: map<NodeId, real>, body: set<NodeId>)
    requires Lawful(sr) && UnitOver(w, body)
    ensures Unit(BodyProduct(sr, w, body))
  {
    if body != {} {
      var a :| a in body && BodyProduct(sr, w, body) == sr.times(BodyProduct(sr, w, body - {a}), w[a]);
      BodyInUnit(sr, w, body - {a});
      TimesBelow(sr, BodyProduct(sr, w, body - {a}), w[a]);
    }
  }

  /** The product does not depend on the order the body is read in. */
  lemma {:induction false} BodyAnyOrder(sr: Semiring, w: map<NodeId, real>, body: set<NodeId>, a: NodeId)
    requires Lawful(sr) && UnitOver(w, body) && a in body
    ensures BodyProduct(sr, w, body) == sr.times(BodyProduct(sr, w, body - {a}), w[a])
    decreases body
  {
    var b :| b in body && BodyProduct(sr, w, body) == sr.times(BodyProduct(sr, w, body - {b}), w[b]);
    if a != b {
      var rest := body - {a} - {b};
      assert rest == body - {b} - {a};
      BodyAnyOrder(sr, w, body - {b}, a);
      BodyAnyOrder(sr, w, body - {a}, b);
      BodyInUnit(sr, w, rest);
      Exchange(sr, BodyProduct(sr, w, rest), w[a], w[b]);
    }
  }

  lemma Exchange(sr: Semiring, p: real, x: real, y: real)
    requires Lawful(sr) && Unit(p) && Unit(x) && Unit(y)
    ensures sr.times(sr.times(p, x), y) == sr.times(sr.times(p, y), x)
  {
    assert LawsOfThree(sr, p, x, y) && LawsOfThree(sr, p, y, x) && LawsOfTwo(sr, x, y);
  }

  /** A body is no stronger than any of its antecedents. */
  lemma BodyBelow(sr: Semiring, w: map<NodeId, real>, body: set<NodeId>, a: NodeId)
    requires Lawful(sr) && UnitOver(w, body) && a in body
    ensures BodyProduct(sr, w, body) <= w[a]
  {
    BodyAnyOrder(sr, w, body, a);
    BodyInUnit(sr, w, body - {a});
    TimesBelow(sr, BodyProduct(sr, w, body - {a}), w[a]);
  }

  lemma {:induction false} BodyMonotone(sr: Semiring, w: map<NodeId, real>, w': map<NodeId, real>, body: set<NodeId>)
    requires Lawful(sr) && UnitOver(w, body) && UnitOver(w', body)
    requires forall a :: a in body ==> w[a] <= w'[a]
    ensures BodyProduct(sr, w, body) <= BodyProduct(sr, w', body)
  {
    if body != {} {
      var a :| a in body && BodyProduct(sr, w, body) == sr.times(BodyProduct(sr, w, body - {a}), w[a]);
      BodyAnyOrder(sr, w', body, a);
      BodyMonotone(sr, w, w', body - {a});
      BodyInUnit(sr, w, body - {a});
      BodyInUnit(sr, w', body - {a});
      TimesMonotone(sr, BodyProduct(sr, w, body - {a}), w[a], BodyProduct(sr, w', body - {a}), w'[a]);
    }
  }

  lemma BodyCongruent(sr: Semiring, w: map<NodeId, real>, w': map<NodeId, real>, body: set<NodeId>)
    requires Lawful(sr) && UnitOver(w, body) && UnitOver(w', body)
    requires forall a :: a in body ==> w[a] == w'[a]
    ensures BodyProduct(sr, w, body) == BodyProduct(sr, w', body)
  {
    BodyMonotone(sr, w, w', body);
    BodyMonotone(sr, w', w, body);
  }

  /** The fold over a rule body, in whatever order the set is read. */
  method CombineBody(sr: Semiring, conf: map<NodeId, real>, body: set<NodeId>) returns (acc: real)
    requires Lawful(sr) && UnitOver(conf, body)
    ensures acc == BodyProduct(sr, conf, body) && Unit(acc)
  {
    acc := sr.one;
    var todo := body;
    ghost var done := {};
    while todo != {}
      invariant todo !! done && todo + done == body
      invariant acc == BodyProduct(sr, conf, done)
      decreases todo
    {
      var a :| a in todo;
      acc := sr.times(acc, conf[a]);
      todo := todo - {a};
      BodyAnyOrder(sr, conf, done + {a}, a);
      assert done + {a} - {a} == done;
      done := done + {a};
    }
    BodyInUnit(sr, conf, body);
  }
}
