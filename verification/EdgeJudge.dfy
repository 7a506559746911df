/**
 The evidence judge of src/iknos/core/edge_judge.py: each panel member sees the evidence in a
 deterministic shuffled order, answers by position, and the answers are put back in place and
 tallied.

 `Permute` is an in-place Fisher-Yates shuffle over a re-hashed byte pool, and a permutation for
 every stream of digests. `OrderDoesNotMatter` says the signs of a model blind to position do not
 depend on the order it was shown. `JudgeHypothesis` folds the votes into opinions (see
 SubjectiveLogic.dfy) and reads the strength of each surviving edge off them.
 */
module EdgeJudge {
  import opened Sets
  import opened Confidence
  import opened SubjectiveLogic

  datatype Sign = Supports | Refutes | Irrelevant

  type Byte = b: int | 0 <= b < 256

  /** The digests hashed for one sample: 32 bytes for each counter value. */
  type Digests = nat -> seq<Byte>

  const DIGEST_BYTES := 32

  ghost predicate FullDigests(digest: Digests) {
    forall k :: |digest(k)| == DIGEST_BYTES
  }

  function BigEndian(bytes: seq<Byte>): (w: nat)
    requires |bytes| == 4
  {
    ((bytes[0] as int * 256 + bytes[1] as int) * 256 + bytes[2] as int) * 256 + bytes[3] as int
  }

  ghost predicate IsPermutation(order: seq<int>, count: nat) {
    |order| == count && Distinct(order) && forall x :: x in order <==> 0 <= x < count
  }

  function Swapped(order: seq<int>, i: nat, j: nat): (s: seq<int>)
    requires i < |order| && j < |order|
    ensures |s| == |order|
  {
    order[i := order[j]][j := order[i]]
  }

  lemma SwapKeepsPermutation(order: seq<int>, count: nat, i: nat, j: nat)
    requires IsPermutation(order, count) && i < count && j < count
    ensures IsPermutation(Swapped(order, i, j), count)
  {
    var s := Swapped(order, i, j);
    forall x
      ensures x in s <==> x in order
    {
      if x in order {
        var k :| 0 <= k < count && order[k] == x;
        assert s[if k == i then j else if k == j then i else k] == x;
      }
      if x in s {
        var k :| 0 <= k < count && s[k] == x;
        assert order[if k == i then j else if k == j then i else k] == x;
      }
    }
  }

  /** The word of the stream that step `i` of `count - 1` reads. */
  ghost function WordAt(digest: Digests, n: nat): nat
    requires FullDigests(digest)
  {
    var at := 4 * (n % 8);
    assert |digest(n / 8)| == DIGEST_BYTES;
    BigEndian(digest(n / 8)[at..at + 4])
  }

  /** The shuffle as a function: `n` words consumed, from the high index down. */
  ghost function Shuffled(count: nat, digest: Digests, n: nat): (s: seq<int>)
    requires FullDigests(digest) && n < count
    ensures |s| == count
  {
    if n == 0 then seq(count, i => i)
    else
      var i := count - n;
      Swapped(Shuffled(count, digest, n - 1), i, WordAt(digest, n - 1) % (i + 1))
  }

  /** The bytes of the first `k` digests. */
  ghost function Pool(digest: Digests, k: nat): (p: seq<Byte>)
    requires FullDigests(digest)
    ensures |p| == k * DIGEST_BYTES
  {
    if k == 0 then [] else Pool(digest, k - 1) + (assert |digest(k - 1)| == DIGEST_BYTES; digest(k - 1))
  }

  lemma {:induction false} PoolHoldsWords(digest: Digests, k: nat, n: nat)
    requires FullDigests(digest) && n < 8 * k
    ensures 4 * n + 4 <= |Pool(digest, k)| && BigEndian(Pool(digest, k)[4 * n..4 * n + 4]) == WordAt(digest, n)
  {
    assert |digest(k - 1)| == DIGEST_BYTES;
    var before := Pool(digest, k - 1);
    if n < 8 * (k - 1) {
      PoolHoldsWords(digest, k - 1, n);
      assert Pool(digest, k)[4 * n..4 * n + 4] == before[4 * n..4 * n + 4];
    } else {
      assert n / 8 == k - 1 && n % 8 == n - 8 * (k - 1);
      assert Pool(digest, k)[4 * n..4 * n + 4] == digest(k - 1)[4 * n - |before|..4 * n + 4 - |before|];
    }
  }

  /** The presentation order of one sample. The pool is extended by re-hashing whenever fewer than
      four bytes are left, so no step reads past it. */
  method Permute(count: nat, digest: Digests) returns (order: array<int>)
    requires FullDigests(digest)
    ensures fresh(order) && IsPermutation(order[..], count)
    ensures count >= 2 ==> order[..] == Shuffled(count, digest, count - 1)
  {
    hide *;
    order := new int[count](i => i);
    StartsInOrder(order[..], count);
    if count < 2 {
      return;
    }
    var pool, cursor, counter := digest(0), 0, 0;
    PoolStarts(digest, count);
    var i := count - 1;
    while i > 0
      invariant 0 <= i < count && order.Length == count && IsPermutation(order[..], count)
      invariant pool == Pool(digest, counter + 1) && cursor == 4 * (count - 1 - i) <= |pool| == 32 * (counter + 1)
      invariant order[..] == Shuffled(count, digest, count - 1 - i)
    {
      if cursor + 4 > |pool| {
        counter := counter + 1;
        PoolGrows(digest, counter);
        pool := pool + digest(counter);
      }
      PoolHoldsWords(digest, counter + 1, count - 1 - i);
      var word := BigEndian(pool[cursor..cursor + 4]);
      cursor := cursor + 4;
      var j := word % (i + 1);
      ghost var before := order[..];
      SwapKeepsPermutation(before, count, i, j);
      ShuffledNext(count, digest, count - 1 - i);
      SwappedIs(before, i, j);
      order[i], order[j] := order[j], order[i];
      assert order[..] == before[i := before[j]][j := before[i]];
      i := i - 1;
    }
  }

  lemma PoolStarts(digest: Digests, count: nat)
    requires FullDigests(digest) && count > 0
    ensures Pool(digest, 1) == digest(0) && |digest(0)| == DIGEST_BYTES && DIGEST_BYTES == 32
    ensures Shuffled(count, digest, 0) == seq(count, i => i)
  {
    assert Pool(digest, 0) == [];
  }

  lemma PoolGrows(digest: Digests, k: nat)
    requires FullDigests(digest)
    ensures Pool(digest, k + 1) == Pool(digest, k) + digest(k) && |digest(k)| == 32
  {
  }

  lemma ShuffledNext(count: nat, digest: Digests, n: nat)
    requires FullDigests(digest) && n + 1 < count
    ensures Shuffled(count, digest, n + 1)
         == Swapped(Shuffled(count, digest, n), count - n - 1, WordAt(digest, n) % (count - n))
  {
  }

  lemma SwappedIs(order: seq<int>, i: nat, j: nat)
    requires i < |order| && j < |order|
    ensures Swapped(order, i, j) == order[i := order[j]][j := order[i]]
  {
  }

  lemma StartsInOrder(order: seq<int>, count: nat)
    requires |order| == count && forall i :: 0 <= i < count ==> order[i] == i
    ensures IsPermutation(order, count) && order == seq(count, i => i)
  {
    forall x
      ensures x in order <==> 0 <= x < count
    {
      if 0 <= x < count {
        assert order[x] == x;
      }
    }
  }

  // ---------------------------------------------------------------- one sample

  /** A verdict names a one-based position of the presented list. */
  datatype Answer = Answer(ref: int, sign: Sign)

  /** The first verdict on a position counts; a position without one is irrelevant. */
  function SignAt(answers: seq<Answer>, pos: int): Sign {
    if answers == [] then Irrelevant
    else if HasAnswer(answers[..|answers| - 1], pos) then SignAt(answers[..|answers| - 1], pos)
    else if answers[|answers| - 1].ref == pos + 1 then answers[|answers| - 1].sign
    else Irrelevant
  }

  predicate HasAnswer(answers: seq<Answer>, pos: int) {
    exists i :: 0 <= i < |answers| && answers[i].ref == pos + 1
  }

  /** Entry `i` is the first verdict on the position. */
  ghost predicate FirstOn(answers: seq<Answer>, pos: int, i: nat) {
    i < |answers| && answers[i].ref == pos + 1 && forall k :: 0 <= k < i ==> answers[k].ref != pos + 1
  }

  lemma {:induction false} SignExactly(answers: seq<Answer>, pos: int, i: nat)
    ensures FirstOn(answers, pos, i) ==> HasAnswer(answers, pos) && SignAt(answers, pos) == answers[i].sign
    ensures (forall k :: 0 <= k < |answers| ==> answers[k].ref != pos + 1) ==> SignAt(answers, pos) == Irrelevant
  {
    if answers != [] {
      var n := |answers| - 1;
      SignExactly(answers[..n], pos, i);
      assert forall k :: 0 <= k < n ==> answers[..n][k] == answers[k];
    }
  }

  method SampleSigns(order: seq<int>, answers: seq<Answer>) returns (signs: seq<Sign>)
    requires IsPermutation(order, |order|)
    ensures |signs| == |order|
    ensures forall p :: 0 <= p < |order| ==> 0 <= order[p] < |order| && signs[order[p]] == SignAt(answers, p)
  {
    var byPresented: map<int, Sign> := map[];
    for i := 0 to |answers|
      invariant forall p :: p in byPresented <==> 0 <= p < |order| && HasAnswer(answers[..i], p)
      invariant forall p :: p in byPresented ==> byPresented[p] == SignAt(answers[..i], p)
    {
      assert answers[..i + 1][..i] == answers[..i];
      var pos := answers[i].ref - 1;
      if 0 <= pos < |order| && pos !in byPresented {
        byPresented := byPresented[pos := answers[i].sign];
      }
    }
    assert answers[..|answers|] == answers;
    signs := seq(|order|, i => Irrelevant);
    for p := 0 to |order|
      invariant |signs| == |order|
      invariant forall k :: 0 <= k < p ==> 0 <= order[k] < |order| && signs[order[k]] == SignAt(answers, k)
    {
      assert order[p] in order;
      assert forall k :: 0 <= k < p ==> order[k] != order[p];
      signs := signs[order[p] := if p in byPresented then byPresented[p] else Irrelevant];
    }
  }

  /** The model judged each item by what it is, not by where it stood. */
  ghost predicate Blind(order: seq<int>, answers: seq<Answer>, opinion: int -> Sign) {
    forall p :: 0 <= p < |order| ==> SignAt(answers, p) == opinion(order[p])
  }

  /** Two panel members blind to position agree on every item, whatever orders they were shown. */
  lemma OrderDoesNotMatter(order: seq<int>, answers: seq<Answer>, signs: seq<Sign>, order': seq<int>,
                           answers': seq<Answer>, signs': seq<Sign>, opinion: int -> Sign, item: nat)
    requires IsPermutation(order, |signs|) && IsPermutation(order', |signs'|) && |signs| == |signs'| && item < |signs|
    requires Blind(order, answers, opinion) && Blind(order', answers', opinion)
    requires forall p :: 0 <= p < |order| ==> 0 <= order[p] < |signs| && signs[order[p]] == SignAt(answers, p)
    requires forall p :: 0 <= p < |order'| ==> 0 <= order'[p] < |signs'| && signs'[order'[p]] == SignAt(answers', p)
    ensures signs[item] == opinion(item) == signs'[item]
  {
    assert item in order && item in order';
    var p :| 0 <= p < |order| && order[p] == item;
    var q :| 0 <= q < |order'| && order'[q] == item;
  }

  // ---------------------------------------------------------------- the tally

  function Votes(samples: seq<seq<Sign>>, item: nat, sign: Sign): nat
    requires forall k :: 0 <= k < |samples| ==> item < |samples[k]|
  {
    if samples == [] then 0
    else Votes(samples[..|samples| - 1], item, sign) + if samples[|samples| - 1][item] == sign then 1 else 0
  }

  /** The panel members who gave the item this sign. */
  ghost function Voters(samples: seq<seq<Sign>>, item: nat, sign: Sign): set<nat> {
    set k: nat | k < |samples| && item < |samples[k]| && samples[k][item] == sign
  }

  lemma OneMoreVoter(samples: seq<seq<Sign>>, item: nat, sign: Sign)
    requires samples != [] && item < |samples[|samples| - 1]|
    ensures var n: nat := |samples| - 1;
            && Voters(samples, item, sign) == Voters(samples[..n], item, sign) + (if samples[n][item] == sign then {n} else {})
            && n !in Voters(samples[..n], item, sign)
  {
    var n: nat := |samples| - 1;
    assert forall k :: 0 <= k < n ==> samples[..n][k] == samples[k];
  }

  lemma {:induction false} VotesAreVoters(samples: seq<seq<Sign>>, item: nat, sign: Sign)
    requires forall k :: 0 <= k < |samples| ==> item < |samples[k]|
    ensures Votes(samples, item, sign) == |Voters(samples, item, sign)|
  {
    if samples == [] {
      assert Voters(samples, item, sign) == {};
    } else {
      var n: nat := |samples| - 1;
      VotesAreVoters(samples[..n], item, sign);
      OneMoreVoter(samples, item, sign);
      hide Voters;
    }
  }

  lemma {:induction false} EveryVoteCounts(samples: seq<seq<Sign>>, item: nat)
    requires forall k :: 0 <= k < |samples| ==> item < |samples[k]|
    ensures Votes(samples, item, Supports) + Votes(samples, item, Refutes) + Votes(samples, item, Irrelevant) == |samples|
  {
    if samples != [] {
      EveryVoteCounts(samples[..|samples| - 1], item);
    }
  }

  datatype Judgment = Judgment(item: nat, sign: Sign, strength: real, opinion: Opinion, positive: nat, negative: nat,
                               abstained: nat, stable: bool)

  /** The verdict on one hypothesis, or the refusal of an unreliable reliability. */
  datatype Ruling = Ruling(judgments: seq<Judgment>, irrelevant: seq<nat>) | BadReliability

  /** Dropped exactly when irrelevance is the strict plurality. */
  predicate Dropped(samples: seq<seq<Sign>>, item: nat)
    requires forall k :: 0 <= k < |samples| ==> item < |samples[k]|
  {
    Votes(samples, item, Irrelevant) > Votes(samples, item, Supports)
    && Votes(samples, item, Irrelevant) > Votes(samples, item, Refutes)
  }

  /** The opinion of votes at a reliability, by what it commits and where it points: a share of the
      votes over the votes and a prior of two, scaled by the reliability. */
  ghost predicate Weighs(o: Opinion, strength: real, positive: nat, negative: nat, reliability: real) {
    var total := (positive + negative + 2) as real;
    && o.Exact() && o.baseRate == 0.5 && strength == o.Projected()
    && Scale(total, 1.0 - o.uncertainty) == Scale(reliability, (positive + negative) as real)
    && Scale(2.0 * total, strength - 0.5) == Scale(reliability, (positive - negative) as real)
  }

  /** What a survivor's record promises. */
  ghost predicate JudgedRight(samples: seq<seq<Sign>>, reliability: real, j: Judgment)
    requires forall k :: 0 <= k < |samples| ==> j.item < |samples[k]|
  {
    && Weighs(j.opinion, j.strength, j.positive, j.negative, reliability)
    && j.sign != Irrelevant
    && j.positive == Votes(samples, j.item, j.sign)
    && j.negative == Votes(samples, j.item, if j.sign == Supports then Refutes else Supports)
    && j.abstained == Votes(samples, j.item, Irrelevant)
    && j.positive >= j.negative && (j.positive == j.negative ==> j.sign == Supports)
    && j.positive + j.negative + j.abstained == |samples|
    && 3 * j.positive >= |samples|
    && (j.stable <==> j.negative == 0)
  }

  method CountVotes(samples: seq<seq<Sign>>, item: nat) returns (supports: nat, refutes: nat, abstained: nat)
    requires forall k :: 0 <= k < |samples| ==> item < |samples[k]|
    ensures supports == Votes(samples, item, Supports) && refutes == Votes(samples, item, Refutes)
    ensures abstained == Votes(samples, item, Irrelevant)
  {
    supports, refutes, abstained := 0, 0, 0;
    for k := 0 to |samples|
      invariant forall i :: 0 <= i < |samples[..k]| ==> item < |samples[..k][i]|
      invariant supports == Votes(samples[..k], item, Supports) && refutes == Votes(samples[..k], item, Refutes)
      invariant abstained == Votes(samples[..k], item, Irrelevant)
    {
      assert samples[..k + 1][..k] == samples[..k];
      match samples[k][item]
      case Supports => supports := supports + 1;
      case Refutes => refutes := refutes + 1;
      case Irrelevant => abstained := abstained + 1;
    }
    assert samples[..|samples|] == samples;
  }

  /** The verdict: each item is judged or dropped, never both, in the input's order. */
  ghost predicate RuledRight(samples: seq<seq<Sign>>, reliability: seq<real>, count: nat, judgments: seq<Judgment>,
                             irrelevant: seq<nat>)
    requires forall k :: 0 <= k < |samples| ==> |samples[k]| >= count
    requires |reliability| >= count
  {
    && (forall i :: 0 <= i < |irrelevant| ==> irrelevant[i] < count && Dropped(samples, irrelevant[i]))
    && (forall i :: 0 <= i < |judgments| ==>
          judgments[i].item < count && JudgedRight(samples, reliability[judgments[i].item], judgments[i])
          && !Dropped(samples, judgments[i].item))
    && (forall item :: 0 <= item < count && Dropped(samples, item) ==> item in irrelevant)
    && (forall item :: 0 <= item < count && !Dropped(samples, item) ==>
          Unit(reliability[item]) && exists i :: 0 <= i < |judgments| && judgments[i].item == item)
    && (forall i, k :: 0 <= i < k < |judgments| ==> judgments[i].item < judgments[k].item)
    && (forall i, k :: 0 <= i < k < |irrelevant| ==> irrelevant[i] < irrelevant[k])
  }

  /** Tallies the panel. It refuses exactly when a surviving item has a reliability out of range. */
  method JudgeHypothesis(count: nat, samples: seq<seq<Sign>>, reliability: seq<real>) returns (r: Ruling)
    requires |reliability| == count && forall k :: 0 <= k < |samples| ==> |samples[k]| == count
    ensures r.BadReliability? <==>
              exists item :: 0 <= item < count && !Dropped(samples, item) && !Unit(reliability[item])
    ensures r.Ruling? ==> RuledRight(samples, reliability, count, r.judgments, r.irrelevant)
  {
    var judgments: seq<Judgment>, irrelevant: seq<nat> := [], [];
    hide *;
    assert RuledRight(samples, reliability, 0, judgments, irrelevant) by { NothingRuled(samples, reliability); }
    for item := 0 to count
      invariant RuledRight(samples, reliability, item, judgments, irrelevant)
    {
      var supports, refutes, abstained := CountVotes(samples, item);
      DroppedMeans(samples, item);
      if abstained > supports && abstained > refutes {
        OneMoreDropped(samples, reliability, item, judgments, irrelevant);
        irrelevant := irrelevant + [item];
      } else {
        var (sign, positive, negative) :=
          if supports >= refutes then (Supports, supports, refutes) else (Refutes, refutes, supports);
        var encoded := OpinionFromEvidence(positive as real, negative as real, 0.5, 2.0);
        EncodedVotes(positive, negative);
        var discounted := Discount(encoded.opinion, reliability[item]);
        DiscountPullsToTheBaseRate(encoded.opinion, reliability[item]);
        if discounted == ValueError {
          return BadReliability;
        }
        var o := discounted.opinion;
        var j := Judgment(item, sign, o.Projected(), o, positive, negative, abstained, supports == 0 || refutes == 0);
        VotesWeigh(positive, negative, reliability[item]);
        JudgedWell(samples, reliability[item], j, supports, refutes);
        OneMoreJudged(samples, reliability, item, judgments, irrelevant, j);
        judgments := judgments + [j];
      }
    }
    RuledInRange(samples, reliability, count, judgments, irrelevant);
    r := Ruling(judgments, irrelevant);
  }

  lemma NothingRuled(samples: seq<seq<Sign>>, reliability: seq<real>)
    ensures RuledRight(samples, reliability, 0, [], [])
  {
  }

  lemma RuledInRange(samples: seq<seq<Sign>>, reliability: seq<real>, count: nat, judgments: seq<Judgment>,
                     irrelevant: seq<nat>)
    requires |reliability| == count && forall k :: 0 <= k < |samples| ==> |samples[k]| >= count
    requires RuledRight(samples, reliability, count, judgments, irrelevant)
    ensures forall item :: 0 <= item < count && !Dropped(samples, item) ==> Unit(reliability[item])
  {
  }

  lemma DroppedMeans(samples: seq<seq<Sign>>, item: nat)
    requires forall k :: 0 <= k < |samples| ==> item < |samples[k]|
    ensures Dropped(samples, item)
       <==> Votes(samples, item, Irrelevant) > Votes(samples, item, Supports)
            && Votes(samples, item, Irrelevant) > Votes(samples, item, Refutes)
  {
  }

  lemma OneMoreDropped(samples: seq<seq<Sign>>, reliability: seq<real>, item: nat, judgments: seq<Judgment>,
                       irrelevant: seq<nat>)
    requires item < |reliability| && forall k :: 0 <= k < |samples| ==> |samples[k]| > item
    requires RuledRight(samples, reliability, item, judgments, irrelevant) && Dropped(samples, item)
    ensures RuledRight(samples, reliability, item + 1, judgments, irrelevant + [item])
  {
    hide Dropped, JudgedRight, Unit;
  }

  lemma OneMoreJudged(samples: seq<seq<Sign>>, reliability: seq<real>, item: nat, judgments: seq<Judgment>,
                      irrelevant: seq<nat>, j: Judgment)
    requires item < |reliability| && forall k :: 0 <= k < |samples| ==> |samples[k]| > item
    requires RuledRight(samples, reliability, item, judgments, irrelevant) && !Dropped(samples, item)
    requires j.item == item && JudgedRight(samples, reliability[item], j) && Unit(reliability[item])
    ensures RuledRight(samples, reliability, item + 1, judgments + [j], irrelevant)
  {
    hide Dropped, JudgedRight, Unit;
    var all := judgments + [j];
    assert all[|judgments|] == j;
    forall k | 0 <= k < item && !Dropped(samples, k)
      ensures exists i :: 0 <= i < |all| && all[i].item == k
    {
      var i :| 0 <= i < |judgments| && judgments[i].item == k;
      assert all[i] == judgments[i];
    }
  }

  lemma JudgedWell(samples: seq<seq<Sign>>, reliability: real, j: Judgment, supports: nat, refutes: nat)
    requires forall k :: 0 <= k < |samples| ==> j.item < |samples[k]|
    requires supports == Votes(samples, j.item, Supports) && refutes == Votes(samples, j.item, Refutes)
    requires j.abstained == Votes(samples, j.item, Irrelevant) && !Dropped(samples, j.item)
    requires if supports >= refutes then j.sign == Supports && j.positive == supports && j.negative == refutes
             else j.sign == Refutes && j.positive == refutes && j.negative == supports
    requires j.stable <==> supports == 0 || refutes == 0
    requires Weighs(j.opinion, j.strength, j.positive, j.negative, reliability)
    ensures JudgedRight(samples, reliability, j)
  {
    hide Votes, Weighs;
    EveryVoteCounts(samples, j.item);
  }

  // ---------------------------------------------------------------- from votes to strength

  lemma EncodedVotes(positive: nat, negative: nat)
    ensures var r := OpinionFromEvidence(positive as real, negative as real, 0.5, 2.0);
            r.Made? && r.opinion.Exact() && r.opinion.baseRate == 0.5
  {
    EncodingKeepsOdds(positive as real, negative as real, 0.5, 2.0);
  }

  /** The encoded votes, over their total. */
  lemma SharesOfVotes(p: real, n: real)
    requires p >= 0.0 && n >= 0.0
    ensures var r := OpinionFromEvidence(p, n, 0.5, 2.0);
            && r.Made? && r.opinion.Exact() && r.opinion.baseRate == 0.5
            && Scale(p + n + 2.0, r.opinion.belief + r.opinion.disbelief) == p + n
            && Scale(2.0 * (p + n + 2.0), r.opinion.Projected() - 0.5) == p - n
  {
    EncodingKeepsOdds(p, n, 0.5, 2.0);
    var t := p + n + 2.0;
    hide HasOdds, Scale;
    SumsOfShares(p / t, n / t, 2.0 / t, t, p, n);
  }

  lemma SumsOfShares(b: real, d: real, u: real, t: real, p: real, n: real)
    requires t == p + n + 2.0 && t > 0.0 && b == p / t && d == n / t && u == 2.0 / t
    ensures Scale(t, b + d) == p + n && Scale(2.0 * t, b + 0.5 * u - 0.5) == p - n
  {
    NonZeroQuotient(p, t);
    NonZeroQuotient(n, t);
    NonZeroQuotient(2.0, t);
    OverAll(b, d, u, t);
  }

  lemma OverAll(b: real, d: real, u: real, t: real)
    ensures Scale(t, b + d) == b * t + d * t
    ensures Scale(2.0 * t, b + 0.5 * u - 0.5) == 2.0 * (b * t) + u * t - t
  {
  }

  lemma VotesWeigh(positive: nat, negative: nat, reliability: real)
    requires Unit(reliability)
    ensures var encoded := OpinionFromEvidence(positive as real, negative as real, 0.5, 2.0);
            && encoded.Made? && Discount(encoded.opinion, reliability).Made?
            && var o := Discount(encoded.opinion, reliability).opinion;
               Weighs(o, o.Projected(), positive, negative, reliability)
  {
    var p, n := positive as real, negative as real;
    SharesOfVotes(p, n);
    hide OpinionFromEvidence, Scale;
    var e := OpinionFromEvidence(p, n, 0.5, 2.0).opinion;
    DiscountPullsToTheBaseRate(e, reliability);
    Weighed(e, Discount(e, reliability).opinion, positive, negative, reliability);
  }

  lemma Weighed(e: Opinion, o: Opinion, positive: nat, negative: nat, r: real)
    requires o.Exact() && o.baseRate == e.baseRate == 0.5
    requires 1.0 - o.uncertainty == Scale(r, e.belief + e.disbelief)
    requires o.Projected() - 0.5 == Scale(r, e.Projected() - 0.5)
    requires var p, n := positive as real, negative as real;
             && Scale(p + n + 2.0, e.belief + e.disbelief) == p + n
             && Scale(2.0 * (p + n + 2.0), e.Projected() - 0.5) == p - n
    ensures Weighs(o, o.Projected(), positive, negative, r)
  {
    var p, n, total := positive as real, negative as real, (positive + negative + 2) as real;
    assert total == p + n + 2.0 && (positive + negative) as real == p + n && (positive - negative) as real == p - n;
    Carried(r, e.belief + e.disbelief, total);
    Carried(r, e.Projected() - 0.5, 2.0 * total);
    hide Scale;
  }

  lemma Carried(r: real, x: real, t: real)
    ensures Scale(t, Scale(r, x)) == Scale(r, Scale(t, x))
  {
  }

  /** An edge of the sign judged is never weaker than even odds, never certain, and at even odds
      exactly when the source counts for nothing or the panel was split in half. */
  lemma StrengthOfAnEdge(o: Opinion, strength: real, positive: nat, negative: nat, reliability: real)
    requires Weighs(o, strength, positive, negative, reliability) && Unit(reliability) && negative <= positive
    ensures 0.5 <= strength < 1.0
    ensures strength == 0.5 <==> reliability == 0.0 || positive == negative
  {
    hide Scale;
    var total, gap := (positive + negative + 2) as real, (positive - negative) as real;
    AtMost(reliability, gap);
    Compare(strength - 0.5, 2.0 * total, gap);
  }

  lemma AtMost(r: real, x: real)
    requires Unit(r) && x >= 0.0
    ensures 0.0 <= Scale(r, x) <= x && (Scale(r, x) == 0.0 <==> r == 0.0 || x == 0.0)
  {
    NonNegativeProduct(r, x);
    NonNegativeProduct(1.0 - r, x);
    Spread(x, 1.0 - r, r);
    if r > 0.0 && x > 0.0 {
      ProductPositive(r, x);
    }
  }

  lemma Compare(x: real, t: real, gap: real)
    requires 0.0 <= Scale(t, x) <= gap && 2.0 * gap < t
    ensures 0.0 <= x < 0.5 && (x == 0.0 <==> Scale(t, x) == 0.0)
  {
    SameSign(t, x);
    SameSign(t, -x);
    SameSign(t, 2.0 * x - 1.0);
    Spread(t, 2.0 * x, -1.0);
    assert t * (-x) == -Scale(t, x);
  }

  /** Every edge the panel judges leaves something open, so the fusion theorems apply to its opinion. */
  lemma NoEdgeIsDogmatic(o: Opinion, strength: real, positive: nat, negative: nat, reliability: real)
    requires Weighs(o, strength, positive, negative, reliability) && Unit(reliability)
    requires positive + negative < 1_999_999_998
    ensures !Dogmatic(o)
  {
    hide Scale;
    var total, votes := (positive + negative + 2) as real, (positive + negative) as real;
    AtMost(reliability, votes);
    Remainder(o.uncertainty, total, votes);
  }

  lemma Remainder(u: real, t: real, votes: real)
    requires Scale(t, 1.0 - u) <= votes && t == votes + 2.0 && 0.0 < t < 2000000000.0
    ensures u > Tolerance
  {
    assert Scale(t, 1.0 - u) == t - t * u;
    if u <= Tolerance {
      NonNegativeProduct(t, Tolerance - u);
      Spread(t, Tolerance, -u);
      assert false;
    }
  }
}
