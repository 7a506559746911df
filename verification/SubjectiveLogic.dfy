/**
 The subjective-logic core of src/iknos/core/subjective_logic.py: panel votes become opinions,
 opinions are discounted by the reliability of their source and fused.

 An opinion that leaves something open is the odds its evidence gives it (`HasOdds`). Discounting
 pulls the read-off towards the base rate, cumulative fusion adds odds and averaging fusion takes
 their mean (`FusingFusesOdds`). OpinionFusion.dfy draws the consequences for many opinions.
 */
module SubjectiveLogic {
  import opened Confidence

  /** The slack the constructor allows the sum of the masses. */
  const Tolerance: real := 0.000000001

  datatype Masses = Masses(belief: real, disbelief: real, uncertainty: real, baseRate: real) {
    /** What the constructor accepts. */
    predicate Accepted() {
      && Unit(belief) && Unit(disbelief) && Unit(uncertainty) && Unit(baseRate)
      && -Tolerance <= belief + disbelief + uncertainty - 1.0 <= Tolerance
    }

    function Total(): real {
      belief + disbelief + uncertainty
    }

    predicate Exact() {
      Total() == 1.0
    }

    /** The read-off: the strength of the judged edge. */
    function Projected(): real {
      belief + baseRate * uncertainty
    }
  }

  type Opinion = o: Masses | o.Accepted() witness Masses(0.0, 0.0, 1.0, 0.5)

  datatype Result = Made(opinion: Opinion) | ValueError

  /** The constructor: masses out of range or not summing to one are refused. */
  function Checked(o: Masses): Result {
    if o.Accepted() then Made(o) else ValueError
  }

  function OpinionFromEvidence(positive: real, negative: real, baseRate: real, priorWeight: real): Result {
    if positive < 0.0 || negative < 0.0 || priorWeight <= 0.0 then ValueError
    else
      var total := positive + negative + priorWeight;
      Checked(Masses(positive / total, negative / total, priorWeight / total, baseRate))
  }

  /** A product under a name, which keeps the arithmetic of the proofs linear. */
  function Scale(factor: real, x: real): real {
    factor * x
  }

  function Discount(o: Opinion, reliability: real): Result {
    if !Unit(reliability) then ValueError
    else
      Checked(Masses(Scale(reliability, o.belief), Scale(reliability, o.disbelief),
                     1.0 - Scale(reliability, o.belief + o.disbelief), o.baseRate))
  }

  predicate Dogmatic(o: Opinion) {
    o.uncertainty <= Tolerance
  }

  datatype Fusion = Cumulative | Averaging

  /** Two masses, each weighted by what the other opinion leaves open. */
  function Pooled(x: real, u: real, y: real, v: real): real {
    x * v + y * u
  }

  function Open(fusion: Fusion, u: real, v: real): real {
    if fusion == Cumulative then u * v else 2.0 * (u * v)
  }

  function Kappa(fusion: Fusion, u: real, v: real): real {
    if fusion == Cumulative then u + v - u * v else u + v
  }

  /** The general weighted form of both fusions. */
  function Weighted(fusion: Fusion, a: Opinion, b: Opinion): Masses
    requires !(Dogmatic(a) && Dogmatic(b))
  {
    var u, v := a.uncertainty, b.uncertainty;
    KappaPositive(fusion, u, v);
    var kappa := Kappa(fusion, u, v);
    Masses(Pooled(a.belief, u, b.belief, v) / kappa, Pooled(a.disbelief, u, b.disbelief, v) / kappa,
           Open(fusion, u, v) / kappa, a.baseRate)
  }

  function FusePair(fusion: Fusion, a: Opinion, b: Opinion): Result {
    if !(-Tolerance <= a.baseRate - b.baseRate <= Tolerance) then ValueError
    else if Dogmatic(a) && Dogmatic(b) then
      Checked(Masses((a.belief + b.belief) / 2.0, (a.disbelief + b.disbelief) / 2.0, 0.0, a.baseRate))
    else Checked(Weighted(fusion, a, b))
  }

  lemma KappaPositive(fusion: Fusion, u: real, v: real)
    requires Unit(u) && Unit(v) && (u > 0.0 || v > 0.0)
    ensures Kappa(fusion, u, v) > 0.0
  {
    NonNegativeProduct(v, 1.0 - u);
    Spread(v, 1.0, -u);
    if u == 0.0 {
      TimesZero(v, u);
    }
  }

  lemma NonNegativeProduct(x: real, y: real)
    requires x >= 0.0 && y >= 0.0
    ensures x * y >= 0.0
  {
  }

  lemma SameSign(x: real, y: real)
    requires x > 0.0
    ensures x * y >= 0.0 <==> y >= 0.0
  {
    if y >= 0.0 {
      NonNegativeProduct(x, y);
    } else {
      ProductPositive(x, -y);
      Spread(x, y, -y);
    }
  }

  lemma NonZeroQuotient(x: real, y: real)
    requires y != 0.0
    ensures (x / y) * y == x
  {
  }

  lemma TimesZero(x: real, y: real)
    requires y == 0.0
    ensures x * y == 0.0 && y * x == 0.0
  {
  }

  // ---------------------------------------------------------------- odds

  /** What an opinion says per unit of prior weight for and against. */
  datatype Odds = Odds(pro: real, con: real) {
    function Plus(o: Odds): Odds {
      Odds(pro + o.pro, con + o.con)
    }

    function Half(): Odds {
      Odds(pro / 2.0, con / 2.0)
    }
  }

  ghost predicate HasOdds(o: Masses, odds: Odds) {
    && odds.pro >= 0.0 && odds.con >= 0.0 && o.uncertainty > 0.0
    && o.belief == odds.pro * o.uncertainty && o.disbelief == odds.con * o.uncertainty
    && o.uncertainty * (1.0 + odds.pro + odds.con) == 1.0
  }

  function OddsOf(o: Opinion): Odds
    requires o.uncertainty > 0.0
  {
    Odds(o.belief / o.uncertainty, o.disbelief / o.uncertainty)
  }

  /** An exact opinion that leaves something open has odds, and is determined by them. */
  lemma ExactHasOdds(o: Opinion)
    requires o.Exact() && o.uncertainty > 0.0
    ensures HasOdds(o, OddsOf(o))
  {
    var odds := OddsOf(o);
    NonNegativeQuotient(o.belief, o.uncertainty);
    NonNegativeQuotient(o.disbelief, o.uncertainty);
    assert o.uncertainty * (1.0 + odds.pro + odds.con)
        == o.uncertainty + odds.pro * o.uncertainty + odds.con * o.uncertainty;
  }

  lemma NonNegativeQuotient(x: real, y: real)
    requires x >= 0.0 && y > 0.0
    ensures x / y >= 0.0 && (x / y) * y == x
  {
  }

  lemma SameOddsSameOpinion(o: Masses, o': Masses, odds: Odds)
    requires HasOdds(o, odds) && HasOdds(o', odds) && o.baseRate == o'.baseRate
    ensures o == o'
  {
    var t := 1.0 + odds.pro + odds.con;
    assert o.uncertainty * t * o'.uncertainty == o'.uncertainty * t * o.uncertainty;
    assert o.uncertainty == o'.uncertainty;
  }

  lemma OddsAreNonNegative(o: Masses, odds: Odds)
    requires HasOdds(o, odds)
    ensures odds.pro >= 0.0 && odds.con >= 0.0 && o.uncertainty > 0.0
  {
  }

  lemma OddsAreUnique(o: Masses, odds: Odds, odds': Odds)
    requires HasOdds(o, odds) && HasOdds(o, odds')
    ensures odds == odds'
  {
    Cancel(odds.pro, odds'.pro, o.uncertainty);
    Cancel(odds.con, odds'.con, o.uncertainty);
  }

  lemma Cancel(x: real, y: real, z: real)
    requires x * z == y * z && z != 0.0
    ensures x == y
  {
    assert (x - y) * z == 0.0;
  }

  /** Whatever has odds is accepted, whoever built it. */
  lemma OddsAreAccepted(o: Masses, odds: Odds)
    requires HasOdds(o, odds) && Unit(o.baseRate)
    ensures o.Accepted() && o.Exact()
  {
    var u := o.uncertainty;
    assert u * (1.0 + odds.pro + odds.con) == u + odds.pro * u + odds.con * u;
    assert odds.pro * u >= 0.0 && odds.con * u >= 0.0;
  }

  // ---------------------------------------------------------------- evidence to opinion and back

  /** The odds of an encoding are the counts per unit of prior weight. */
  lemma EncodingKeepsOdds(positive: real, negative: real, baseRate: real, priorWeight: real)
    requires positive >= 0.0 && negative >= 0.0 && priorWeight > 0.0 && Unit(baseRate)
    ensures var r := OpinionFromEvidence(positive, negative, baseRate, priorWeight);
            && r.Made? && r.opinion.Exact() && r.opinion.baseRate == baseRate
            && HasOdds(r.opinion, Odds(positive / priorWeight, negative / priorWeight))
  {
    hide HasOdds;
    var total := positive + negative + priorWeight;
    Shares(positive, negative, priorWeight, baseRate);
    OddsAreAccepted(Masses(positive / total, negative / total, priorWeight / total, baseRate),
                    Odds(positive / priorWeight, negative / priorWeight));
  }

  lemma Shares(p: real, n: real, w: real, baseRate: real)
    requires p >= 0.0 && n >= 0.0 && w > 0.0
    ensures var t := p + n + w;
            HasOdds(Masses(p / t, n / t, w / t, baseRate), Odds(p / w, n / w))
  {
    var t := p + n + w;
    var u := w / t;
    NonNegativeQuotient(w, t);
    NonNegativeQuotient(p, w);
    NonNegativeQuotient(n, w);
    NonNegativeQuotient(p, t);
    NonNegativeQuotient(n, t);
    Chain(p, w, t);
    Chain(n, w, t);
    Positive(u, t);
    assert u * (1.0 + p / w + n / w) == u + (p / w) * u + (n / w) * u;
    SumOfShares(p, n, w);
  }

  /** A share of the whole is the share of a part times the part's share. */
  lemma Chain(x: real, y: real, z: real)
    requires y > 0.0 && z > 0.0
    ensures x / z == (x / y) * (y / z)
  {
    var q, r := x / y, y / z;
    assert q * y == x && r * z == y;
    assert (q * r) * z == q * (r * z) == x;
    Cancel(x / z, q * r, z);
  }

  lemma SumOfShares(p: real, n: real, w: real)
    requires p + n + w > 0.0
    ensures var t := p + n + w; p / t + n / t + w / t == 1.0
  {
    var t := p + n + w;
    var a, b, c := p / t, n / t, w / t;
    assert a * t == p && b * t == n && c * t == w;
    assert (a + b + c) * t == a * t + b * t + c * t;
    Cancel(a + b + c, 1.0, t);
  }

  /** Every opinion with odds is their encoding. */
  lemma DecodeThenEncode(o: Opinion, odds: Odds, priorWeight: real)
    requires HasOdds(o, odds) && priorWeight > 0.0
    ensures OpinionFromEvidence(odds.pro * priorWeight, odds.con * priorWeight, o.baseRate, priorWeight) == Made(o)
  {
    var p, n := odds.pro * priorWeight, odds.con * priorWeight;
    OddsAreNonNegative(o, odds);
    hide HasOdds, OpinionFromEvidence;
    TimesThenOver(odds.pro, priorWeight);
    TimesThenOver(odds.con, priorWeight);
    EncodingKeepsOdds(p, n, o.baseRate, priorWeight);
    var r := OpinionFromEvidence(p, n, o.baseRate, priorWeight);
    assert HasOdds(r.opinion, Odds(p / priorWeight, n / priorWeight));
    assert Odds(p / priorWeight, n / priorWeight) == odds;
    SameOddsSameOpinion(o, r.opinion, odds);
  }

  lemma TimesThenOver(x: real, y: real)
    requires x >= 0.0 && y > 0.0
    ensures x * y >= 0.0 && x * y / y == x
  {
    Cancel(x * y / y, x, y);
  }

  // ---------------------------------------------------------------- discounting

  /** A discount is refused only when it keeps more than there is to keep, which exact masses rule
      out. It leaves exact masses, and pulls the read-off straight towards the base rate without
      adding certainty. */
  lemma DiscountPullsToTheBaseRate(o: Opinion, reliability: real)
    ensures Discount(o, reliability).Made? <==> Unit(reliability) && Scale(reliability, o.belief + o.disbelief) <= 1.0
    ensures Discount(o, reliability).Made? ==>
              var d := Discount(o, reliability).opinion;
              && d.Exact() && d.baseRate == o.baseRate
              && 1.0 - d.uncertainty == Scale(reliability, o.belief + o.disbelief)
              && d.Projected() - d.baseRate == Scale(reliability, o.Projected() - o.baseRate * o.Total())
    ensures o.Exact() && Unit(reliability) ==>
              && Discount(o, reliability).Made?
              && Discount(o, reliability).opinion.uncertainty >= o.uncertainty
  {
    if Unit(reliability) {
      ScaleSum(reliability, o.belief, o.disbelief);
      ScaledUnit(reliability, o.belief);
      ScaledUnit(reliability, o.disbelief);
      if o.Exact() {
        ScaledUnit(reliability, o.belief + o.disbelief);
      }
      ReadOff(o, reliability);
      hide Scale, o.Projected;
    }
  }

  lemma ScaleSum(r: real, b: real, d: real)
    ensures Scale(r, b) + Scale(r, d) == Scale(r, b + d)
  {
  }

  lemma ReadOff(o: Opinion, r: real)
    ensures var d := Masses(Scale(r, o.belief), Scale(r, o.disbelief), 1.0 - Scale(r, o.belief + o.disbelief), o.baseRate);
            d.Projected() - d.baseRate == Scale(r, o.Projected() - o.baseRate * o.Total())
  {
    Rearranged(r, o.belief, o.belief + o.disbelief, o.uncertainty, o.baseRate);
  }

  lemma Rearranged(r: real, b: real, c: real, u: real, a: real)
    ensures Scale(r, b) + a * (1.0 - Scale(r, c)) - a == Scale(r, b + a * u - a * (c + u))
  {
  }

  lemma ScaledUnit(r: real, x: real)
    requires Unit(r) && Unit(x)
    ensures Unit(Scale(r, x)) && Scale(r, x) <= x
  {
    NonNegativeProduct(r, x);
    NonNegativeProduct(1.0 - r, x);
    assert r * x == x - (1.0 - r) * x;
  }

  /** Discounting what a discount left is discounting once by both reliabilities. */
  lemma DiscountsCompose(o: Opinion, r: real, s: real)
    requires Unit(s) && Discount(o, r).Made?
    ensures Discount(Discount(o, r).opinion, s) == Discount(o, s * r)
  {
    ScaledUnit(s, r);
    ScaleTwice(s, r, o.belief);
    ScaleTwice(s, r, o.disbelief);
    ScaleTwice(s, r, o.belief + o.disbelief);
    ScaleSum(r, o.belief, o.disbelief);
    assert Scale(s, r) == s * r;
    hide Scale;
  }

  lemma ScaleTwice(s: real, r: real, x: real)
    ensures Scale(s, Scale(r, x)) == Scale(s * r, x)
  {
  }

  /** Full reliability is the identity exactly on opinions whose masses sum to one; the constructor
      accepts others, which a full-reliability discount changes or refuses. */
  lemma FullReliabilityIsTheIdentityExactlyWhen(o: Opinion)
    ensures Discount(o, 1.0) == Made(o) <==> o.Exact()
  {
    assert 1.0 * o.belief == o.belief && 1.0 * o.disbelief == o.disbelief;
    assert 1.0 * (o.belief + o.disbelief) == o.belief + o.disbelief;
  }

  /** No reliability at all leaves nothing but the base rate. */
  lemma NoReliabilityIsVacuous(o: Opinion)
    ensures Discount(o, 0.0) == Made(Masses(0.0, 0.0, 1.0, o.baseRate))
  {
    assert 0.0 * o.belief == 0.0 && 0.0 * o.disbelief == 0.0 && 0.0 * (o.belief + o.disbelief) == 0.0;
  }

  // ---------------------------------------------------------------- fusing two

  function Fused(fusion: Fusion, x: Odds, y: Odds): Odds {
    if fusion == Cumulative then x.Plus(y) else x.Plus(y).Half()
  }

  ghost predicate Comparable(a: Opinion, b: Opinion) {
    -Tolerance <= a.baseRate - b.baseRate <= Tolerance
  }

  /** Fusing opinions is fusing their odds: cumulative fusion adds them, averaging fusion takes the
      mean. */
  lemma FusingFusesOdds(fusion: Fusion, a: Opinion, b: Opinion, x: Odds, y: Odds)
    requires HasOdds(a, x) && HasOdds(b, y) && Comparable(a, b) && !(Dogmatic(a) && Dogmatic(b))
    ensures var r := FusePair(fusion, a, b);
            r.Made? && HasOdds(r.opinion, Fused(fusion, x, y)) && r.opinion.baseRate == a.baseRate
  {
    WeightedHasOdds(fusion, a, b, x, y);
    hide HasOdds, Weighted;
    OddsAreAccepted(Weighted(fusion, a, b), Fused(fusion, x, y));
  }

  /** Zero uncertainty absorbs whatever the tolerance does not round to it. */
  lemma ClosedAbsorbs(fusion: Fusion, a: Opinion, b: Opinion)
    requires a.uncertainty == 0.0 && !Dogmatic(b) && Comparable(a, b)
    ensures FusePair(fusion, a, b) == Made(a)
    ensures FusePair(fusion, b, a) == Made(Masses(a.belief, a.disbelief, 0.0, b.baseRate))
  {
    var v := b.uncertainty;
    Absorbed(fusion, a.belief, b.belief, v);
    Absorbed(fusion, a.disbelief, b.disbelief, v);
    hide Pooled, Open, Kappa;
  }

  lemma Absorbed(fusion: Fusion, x: real, y: real, v: real)
    requires v > 0.0
    ensures Kappa(fusion, 0.0, v) == Kappa(fusion, v, 0.0) == v
    ensures Open(fusion, 0.0, v) / v == Open(fusion, v, 0.0) / v == 0.0
    ensures Pooled(x, 0.0, y, v) / v == Pooled(y, v, x, 0.0) / v == x
  {
    TimesZero(v, 0.0);
    TimesZero(y, 0.0);
    Cancel(x * v / v, x, v);
    Cancel(0.0 / v, 0.0, v);
  }

  /** Two dogmatic opinions are averaged mass by mass, whichever the fusion. */
  lemma DogmaticAverage(fusion: Fusion, a: Opinion, b: Opinion)
    requires Dogmatic(a) && Dogmatic(b) && Comparable(a, b)
    ensures FusePair(fusion, a, b)
         == Checked(Masses((a.belief + b.belief) / 2.0, (a.disbelief + b.disbelief) / 2.0, 0.0, a.baseRate))
  {
  }

  /** Exact opinions on one proposition are never refused. What they fuse to is exact unless both
      were rounded to dogmatic ones. */
  lemma ExactFusion(fusion: Fusion, a: Opinion, b: Opinion)
    requires a.Exact() && b.Exact() && Comparable(a, b)
    ensures FusePair(fusion, a, b).Made? && FusePair(fusion, a, b).opinion.baseRate == a.baseRate
    ensures FusePair(fusion, a, b).opinion.Exact()
       <==> !(Dogmatic(a) && Dogmatic(b)) || a.uncertainty == b.uncertainty == 0.0
  {
    if Dogmatic(a) && Dogmatic(b) {
      DogmaticAverage(fusion, a, b);
    } else if a.uncertainty == 0.0 {
      ClosedAbsorbs(fusion, a, b);
    } else if b.uncertainty == 0.0 {
      ClosedAbsorbs(fusion, b, a);
    } else {
      ExactHasOdds(a);
      ExactHasOdds(b);
      FusingFusesOdds(fusion, a, b, OddsOf(a), OddsOf(b));
      hide HasOdds, FusePair, OddsOf;
      OddsAreAccepted(FusePair(fusion, a, b).opinion, Fused(fusion, OddsOf(a), OddsOf(b)));
    }
  }

  /** Slack in the masses grows under cumulative fusion, so two opinions the constructor accepted with
      all the slack it allows are refused when fused. */
  lemma CumulativeRefusesSlack(a: Opinion, b: Opinion)
    requires a.Total() == b.Total() == 1.0 + Tolerance && Comparable(a, b)
    requires a.uncertainty > 0.0 && b.uncertainty > 0.0 && !(Dogmatic(a) && Dogmatic(b))
    ensures FusePair(Cumulative, a, b) == ValueError
  {
    var u, v := a.uncertainty, b.uncertainty;
    KappaPositive(Cumulative, u, v);
    var kappa := Kappa(Cumulative, u, v);
    var pro, con := Pooled(a.belief, u, b.belief, v), Pooled(a.disbelief, u, b.disbelief, v);
    ProductPositive(u, v);
    PooledSum(a.belief, a.disbelief, u, b.belief, b.disbelief, v);
    Shares3(pro, con, Open(Cumulative, u, v), kappa);
    hide Pooled;
    assert pro + con + u * v == kappa + Tolerance * (u + v);
    Outgrows(pro + con + u * v, kappa, u, v);
  }

  lemma PooledSum(b: real, d: real, u: real, b': real, d': real, v: real)
    requires b + d + u == b' + d' + v == 1.0 + Tolerance
    ensures Pooled(b, u, b', v) + Pooled(d, u, d', v) + u * v == u + v - u * v + Tolerance * (u + v)
  {
    assert b * v + d * v == (1.0 + Tolerance - u) * v;
    assert b' * u + d' * u == (1.0 + Tolerance - v) * u;
  }

  lemma Shares3(x: real, y: real, z: real, t: real)
    requires t > 0.0
    ensures x / t + y / t + z / t == (x + y + z) / t
  {
    var p, q, r := x / t, y / t, z / t;
    assert p * t == x && q * t == y && r * t == z;
    assert (p + q + r) * t == p * t + q * t + r * t;
    Cancel((x + y + z) / t, p + q + r, t);
  }

  lemma Outgrows(x: real, kappa: real, u: real, v: real)
    requires kappa == u + v - u * v > 0.0 && u * v > 0.0 && x == kappa + Tolerance * (u + v)
    ensures x / kappa > 1.0 + Tolerance
  {
    var q := x / kappa;
    assert q * kappa == x > (1.0 + Tolerance) * kappa;
    SameSign(kappa, q - (1.0 + Tolerance));
    SameSign(kappa, (1.0 + Tolerance) - q);
    Spread(kappa, q, -(1.0 + Tolerance));
    assert kappa * (q - (1.0 + Tolerance)) > 0.0;
  }

  lemma WeightedHasOdds(fusion: Fusion, a: Opinion, b: Opinion, x: Odds, y: Odds)
    requires HasOdds(a, x) && HasOdds(b, y) && !(Dogmatic(a) && Dogmatic(b))
    ensures HasOdds(Weighted(fusion, a, b), Fused(fusion, x, y)) && Weighted(fusion, a, b).baseRate == a.baseRate
  {
    var u, v := a.uncertainty, b.uncertainty;
    KappaPositive(fusion, u, v);
    Parts(fusion, a, b, x, y);
    hide Pooled, Open, Kappa, HasOdds, Unit, Fused, InParts;
    PartsHaveOdds(Fused(fusion, x, y), Pooled(a.belief, u, b.belief, v), Pooled(a.disbelief, u, b.disbelief, v),
                  Open(fusion, u, v), Kappa(fusion, u, v), a.baseRate);
  }

  /** Three parts of a whole, in the proportion the odds give. */
  ghost predicate InParts(odds: Odds, pro: real, con: real, open: real, whole: real) {
    && odds.pro >= 0.0 && odds.con >= 0.0 && open > 0.0
    && pro == odds.pro * open && con == odds.con * open && whole == open * (1.0 + odds.pro + odds.con)
  }

  /** What the fusions divide, and by what. */
  lemma Parts(fusion: Fusion, a: Opinion, b: Opinion, x: Odds, y: Odds)
    requires HasOdds(a, x) && HasOdds(b, y)
    ensures var u, v := a.uncertainty, b.uncertainty;
            InParts(Fused(fusion, x, y), Pooled(a.belief, u, b.belief, v), Pooled(a.disbelief, u, b.disbelief, v),
                    Open(fusion, u, v), Kappa(fusion, u, v))
  {
    var u, v := a.uncertainty, b.uncertainty;
    hide Unit;
    ProductPositive(u, v);
    Numerator(a.belief, b.belief, x.pro, y.pro, u, v);
    Numerator(a.disbelief, b.disbelief, x.con, y.con, u, v);
    KappaIs(a, b, x, y);
    OddsAreNonNegative(a, x);
    OddsAreNonNegative(b, y);
    hide HasOdds;
    if fusion == Averaging {
      Halved(x.pro + y.pro, u * v);
      Halved(x.con + y.con, u * v);
      Halved(2.0 + (x.pro + y.pro + x.con + y.con), u * v);
    }
  }

  lemma Halved(x: real, y: real)
    ensures x * y == (x / 2.0) * (2.0 * y) && y * x == (2.0 * y) * (x / 2.0)
  {
  }

  lemma Numerator(a: real, b: real, p: real, q: real, u: real, v: real)
    requires a == p * u && b == q * v
    ensures a * v + b * u == (p + q) * (u * v)
  {
    Scaled(a, p * u, v);
    Scaled(b, q * v, u);
    assert (p * u) * v + (q * v) * u == (p + q) * (u * v);
  }

  /** The divisors of both fusions, in terms of odds. */
  lemma KappaIs(a: Opinion, b: Opinion, x: Odds, y: Odds)
    requires HasOdds(a, x) && HasOdds(b, y)
    ensures var both, t := a.uncertainty * b.uncertainty, x.pro + y.pro + x.con + y.con;
            && a.uncertainty + b.uncertainty - both == both * (1.0 + t)
            && a.uncertainty + b.uncertainty == both * (2.0 + t)
  {
    var u, v := a.uncertainty, b.uncertainty;
    var p, q := 1.0 + x.pro + x.con, 1.0 + y.pro + y.con;
    Scaled(u * p, 1.0, v);
    Scaled(v * q, 1.0, u);
    assert (u * p) * v == (u * v) * p && (v * q) * u == (u * v) * q;
    Spread(u * v, p, q);
    Spread(u * v, p + q - 1.0, 1.0);
  }

  lemma Scaled(x: real, y: real, z: real)
    requires x == y
    ensures x * z == y * z
  {
  }

  lemma Spread(x: real, y: real, z: real)
    ensures x * (y + z) == x * y + x * z
  {
  }

  lemma ProductPositive(x: real, y: real)
    requires x > 0.0 && y > 0.0
    ensures x * y > 0.0
  {
  }

  lemma PartsHaveOdds(odds: Odds, pro: real, con: real, open: real, whole: real, baseRate: real)
    requires InParts(odds, pro, con, open, whole) && whole > 0.0
    ensures HasOdds(Masses(pro / whole, con / whole, open / whole, baseRate), odds)
  {
    var u := open / whole;
    NonNegativeQuotient(open, whole);
    Positive(u, whole);
    Moved(odds.pro, open, whole);
    Moved(odds.con, open, whole);
    var t := 1.0 + odds.pro + odds.con;
    assert (u * t) * open == u * (open * t);
    assert u * (open * t) == u * whole == 1.0 * open;
    Cancel(u * t, 1.0, open);
  }

  lemma Positive(u: real, w: real)
    requires u * w > 0.0 && w > 0.0
    ensures u > 0.0
  {
    assert u <= 0.0 ==> u * w <= 0.0;
  }

  lemma Moved(x: real, y: real, z: real)
    requires z > 0.0
    ensures x * y / z == x * (y / z)
  {
    assert (x * (y / z)) * z == x * ((y / z) * z) == x * y;
    Cancel(x * y / z, x * (y / z), z);
  }
}
