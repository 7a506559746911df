/**
 What src/iknos/core/proposition.py keeps per span: the current propositions, and the
 append-only action log its two stages consult. Extraction is keyed by a content hash,
 verification by the verifier's identity.

 This file gives the stored state, the effect of each transaction on it, and the invariant
 `Sound`. The pipeline that drives them is in Proposition.dfy.
 */
module PropositionLog {
  import opened DerivationAdapter

  datatype SpanId = SpanId(tag: int)
  datatype PropId = PropId(serial: nat)
  datatype Hash = Hash(tag: int)

  /** The identity of a verifier: model, prompt and schema digests. */
  datatype Sig = Sig(tag: int)

  datatype Entailment = Contradicted | Neutral | Entailed

  datatype Verdict = Verdict(entailment: Entailment, polarityPreserved: bool, modalityPreserved: bool)

  datatype Reason = LowFaithfulness | UnassessedFaithfulness | PolarityUnstable | UnresolvedReference

  /** The embedding model a vector was computed under: vectors of two models are not comparable. */
  datatype Space = Space(tag: int)

  datatype Prop = Prop(id: PropId, agreement: Option<real>, faithfulness: Option<real>, reasons: set<Reason>,
                       space: Space)

  datatype Row = Row(prop: PropId, verdict: Option<Verdict>, faithfulness: Option<real>)

  datatype Action =
    | Extract(span: SpanId, hash: Hash, props: seq<PropId>, superseded: seq<PropId>, source: Option<SpanId>,
              reused: Option<Sig>)
    | Verify(span: SpanId, props: seq<PropId>, who: Sig, sig: Option<Sig>, rows: seq<Row>)

  datatype Db = Db(log: seq<Action>, props: map<SpanId, seq<Prop>>, nextId: nat)

  function PropsOf(db: Db, s: SpanId): seq<Prop> {
    if s in db.props then db.props[s] else []
  }

  function Ids(ps: seq<Prop>): (ids: seq<PropId>)
    ensures |ids| == |ps| && forall i :: 0 <= i < |ps| ==> ids[i] == ps[i].id
  {
    seq(|ps|, i requires 0 <= i < |ps| => ps[i].id)
  }

  // ---------------------------------------------------------------- faithfulness

  const GATE := 0.5

  function FromVerdict(v: Verdict): real {
    var base := match v.entailment case Contradicted => 0.0 case Neutral => 0.3 case Entailed => 1.0;
    base * (if v.polarityPreserved then 1.0 else 0.4) * (if v.modalityPreserved then 1.0 else 0.7)
  }

  /** The product of verdict, sampling agreement and parse quality; none without a verdict. */
  function Faithfulness(v: Option<Verdict>, agreement: Option<real>, quality: real): Option<real> {
    match v
    case None => None
    case Some(verdict) => Some(FromVerdict(verdict) * (if agreement.Some? then agreement.value else 1.0) * quality)
  }

  function ReasonsFor(faithfulness: Option<real>): set<Reason> {
    if faithfulness.None? then {UnassessedFaithfulness}
    else if faithfulness.value < GATE then {LowFaithfulness}
    else {}
  }

  ghost predicate Degree(x: real) {
    0.0 <= x <= 1.0
  }

  /** Entailed, with its polarity kept, and reliable enough for what became of its hedge. */
  ghost predicate Passes(v: Verdict, reliability: real) {
    v.entailment == Entailed && v.polarityPreserved && reliability >= if v.modalityPreserved then 1.0 / 2.0 else 5.0 / 7.0
  }

  /** Where a verdict puts a proposition, given how reliable its sampling and its parse are together:
      contradicted claims score zero, and no score exceeds that reliability. The gate lets through
      exactly the entailed claims of kept polarity that are reliable enough: one half, or five
      sevenths if a hedge was flattened. A neutral verdict or a dropped negation never passes. */
  lemma GateExactlyWhen(v: Verdict, agreement: Option<real>, quality: real, reliability: real)
    requires Degree(quality) && (agreement.Some? ==> Degree(agreement.value))
    requires reliability == if agreement.Some? then agreement.value * quality else quality
    ensures var f := Faithfulness(Some(v), agreement, quality);
            && f.Some? && 0.0 <= f.value <= reliability
            && (v.entailment == Contradicted ==> f.value == 0.0)
            && (v == Verdict(Entailed, true, true) ==> f.value == reliability)
            && (LowFaithfulness in ReasonsFor(f) <==> !Passes(v, reliability))
  {
    var f := Faithfulness(Some(v), agreement, quality).value;
    var share := FromVerdict(v);
    assert f == share * reliability by {
      assert share * (if agreement.Some? then agreement.value else 1.0) * quality == share * reliability;
    }
    ReliabilityIsDegree(agreement, quality, reliability);
    assert v.entailment == Contradicted ==> share == 0.0;
    assert v.entailment == Neutral ==> 0.0 <= share <= 0.3;
    assert !v.polarityPreserved ==> 0.0 <= share <= 0.4;
    assert v.entailment == Entailed && v.polarityPreserved ==> share == if v.modalityPreserved then 1.0 else 0.7;
    hide FromVerdict, Faithfulness;
  }

  lemma ReliabilityIsDegree(agreement: Option<real>, quality: real, reliability: real)
    requires Degree(quality) && (agreement.Some? ==> Degree(agreement.value))
    requires reliability == if agreement.Some? then agreement.value * quality else quality
    ensures Degree(reliability)
  {
    if agreement.Some? {
      NonNegativeProduct(agreement.value, quality);
      NonNegativeProduct(1.0 - agreement.value, quality);
    }
  }

  lemma NonNegativeProduct(x: real, y: real)
    requires x >= 0.0 && y >= 0.0
    ensures x * y >= 0.0
  {
  }

  /** The defects multiply: a flattened hedge costs three tenths of the score, a dropped negation six
      tenths, and a neutral verdict seven tenths, whatever else is wrong. */
  lemma DefectsMultiply(v: Verdict)
    ensures v.modalityPreserved ==> 10.0 * FromVerdict(v.(modalityPreserved := false)) == 7.0 * FromVerdict(v)
    ensures v.polarityPreserved ==> 10.0 * FromVerdict(v.(polarityPreserved := false)) == 4.0 * FromVerdict(v)
    ensures v.entailment == Entailed ==> 10.0 * FromVerdict(v.(entailment := Neutral)) == 3.0 * FromVerdict(v)
    ensures FromVerdict(Verdict(Entailed, true, true)) == 1.0 && FromVerdict(v.(entailment := Contradicted)) == 0.0
  {
  }

  /** A re-assessment re-derives the faithfulness reasons and keeps every other one. */
  function Reassess(existing: set<Reason>, faithfulness: Option<real>): set<Reason> {
    existing - {LowFaithfulness, UnassessedFaithfulness} + ReasonsFor(faithfulness)
  }

  // ---------------------------------------------------------------- reading the log

  function LastExtract(log: seq<Action>, s: SpanId): Option<Action> {
    if log == [] then None
    else if log[|log| - 1].Extract? && log[|log| - 1].span == s then Some(log[|log| - 1])
    else LastExtract(log[..|log| - 1], s)
  }

  function LastVerify(log: seq<Action>, s: SpanId): Option<Action> {
    if log == [] then None
    else if log[|log| - 1].Verify? && log[|log| - 1].span == s then Some(log[|log| - 1])
    else LastVerify(log[..|log| - 1], s)
  }

  function ExtractedHash(db: Db, s: SpanId): Option<Hash> {
    match LastExtract(db.log, s)
    case None => None
    case Some(a) => if a.Extract? then Some(a.hash) else None
  }

  predicate Intersects(a: seq<PropId>, b: seq<PropId>) {
    exists id :: id in a && id in b
  }

  /** The identity the span's current propositions were verified under: that of a verify action
      on the current generation, else the one a replayed extraction carries. */
  function SpanVerifyIdentity(db: Db, s: SpanId): Option<Sig> {
    var v, e := LastVerify(db.log, s), LastExtract(db.log, s);
    if v.Some? && v.value.Verify? && v.value.sig.Some? && Intersects(v.value.props, Ids(PropsOf(db, s))) then v.value.sig
    else if e.Some? && e.value.Extract? then e.value.reused
    else None
  }

  lemma LogAppend(log: seq<Action>, a: Action, s: SpanId)
    ensures LastExtract(log + [a], s) == if a.Extract? && a.span == s then Some(a) else LastExtract(log, s)
    ensures LastVerify(log + [a], s) == if a.Verify? && a.span == s then Some(a) else LastVerify(log, s)
  {
    assert (log + [a])[..|log|] == log;
  }

  lemma {:induction false} LastIsIn(log: seq<Action>, s: SpanId)
    ensures LastExtract(log, s).Some? ==> LastExtract(log, s).value in log && LastExtract(log, s).value.Extract?
    ensures LastVerify(log, s).Some? ==> LastVerify(log, s).value in log && LastVerify(log, s).value.Verify?
  {
    if log != [] {
      LastIsIn(log[..|log| - 1], s);
    }
  }

  // ---------------------------------------------------------------- the transactions

  /** One inferred proposition with its vector. */
  datatype Draft = Draft(agreement: Option<real>, unstable: bool, space: Space)

  /** New vertices with fresh ids, scored by the verdicts, or unassessed without a verifier. */
  function Minted(nextId: nat, drafts: seq<Draft>, verdicts: seq<Option<Verdict>>, quality: real): seq<Prop>
    requires |verdicts| == |drafts|
  {
    seq(|drafts|, i requires 0 <= i < |drafts| =>
      var faithfulness := Faithfulness(verdicts[i], drafts[i].agreement, quality);
      Prop(PropId(nextId + i), drafts[i].agreement, faithfulness,
           (if drafts[i].unstable then {PolarityUnstable} else {}) + ReasonsFor(faithfulness), drafts[i].space))
  }

  function RowsOf(ps: seq<Prop>, verdicts: seq<Option<Verdict>>): seq<Row>
    requires |verdicts| == |ps|
  {
    seq(|ps|, i requires 0 <= i < |ps| => Row(ps[i].id, verdicts[i], ps[i].faithfulness))
  }

  /** The verify action: the identity is stamped only if every proposition got a verdict. */
  function VerifyAction(s: SpanId, who: Sig, ps: seq<Prop>, verdicts: seq<Option<Verdict>>): Action
    requires |verdicts| == |ps|
  {
    Verify(s, Ids(ps), who, if None in verdicts then None else Some(who), RowsOf(ps, verdicts))
  }

  /** One extraction transaction. */
  function Persisted(db: Db, s: SpanId, hash: Hash, drafts: seq<Draft>, verifier: Option<Sig>,
                     verdicts: seq<Option<Verdict>>, quality: real, purge: bool): Db
    requires |verdicts| == |drafts|
  {
    var kept := if purge then [] else PropsOf(db, s);
    var fresh_ := Minted(db.nextId, drafts, verdicts, quality);
    var extract := Extract(s, hash, Ids(fresh_), if purge then Ids(PropsOf(db, s)) else [], None, None);
    Db(db.log + [extract] + (
         if verifier.Some? && drafts != [] then [VerifyAction(s, verifier.value, fresh_, verdicts)] else []),
       db.props[s := kept + fresh_],
       db.nextId + |drafts|)
  }

  /** The same propositions, re-scored in place. */
  function Rescored(ps: seq<Prop>, verdicts: seq<Option<Verdict>>, quality: real): seq<Prop>
    requires |verdicts| == |ps|
  {
    seq(|ps|, i requires 0 <= i < |ps| =>
      var faithfulness := Faithfulness(verdicts[i], ps[i].agreement, quality);
      ps[i].(faithfulness := faithfulness, reasons := Reassess(ps[i].reasons, faithfulness)))
  }

  /** One re-verification transaction; nothing is written for a span without propositions. */
  function Reverified(db: Db, s: SpanId, who: Sig, verdicts: seq<Option<Verdict>>, quality: real): Db
    requires |verdicts| == |PropsOf(db, s)|
  {
    var ps := PropsOf(db, s);
    if ps == [] then db
    else
      var scored := Rescored(ps, verdicts, quality);
      Db(db.log + [VerifyAction(s, who, scored, verdicts)], db.props[s := scored], db.nextId)
  }

  // ---------------------------------------------------------------- the invariant

  /** The verify action speaks for exactly these propositions, with their present scores. */
  ghost predicate Vouches(a: Action, ps: seq<Prop>, quality: real) {
    && a.Verify? && a.props == Ids(ps) && |a.rows| == |ps|
    && (forall i :: 0 <= i < |ps| ==>
          a.rows[i].prop == ps[i].id && a.rows[i].faithfulness == ps[i].faithfulness
          && ps[i].faithfulness == Faithfulness(a.rows[i].verdict, ps[i].agreement, quality))
    && (a.sig.Some? ==> a.sig.value == a.who && forall i :: 0 <= i < |ps| ==> a.rows[i].verdict.Some?)
  }

  /** Unassessed or low exactly as the score says: no unassessed proposition passes for trusted. */
  ghost predicate FlaggedRight(p: Prop) {
    && (UnassessedFaithfulness in p.reasons <==> p.faithfulness.None?)
    && (LowFaithfulness in p.reasons <==> p.faithfulness.Some? && p.faithfulness.value < GATE)
  }

  ghost predicate Older(ids: seq<PropId>, nextId: nat) {
    forall i :: 0 <= i < |ids| ==> ids[i].serial < nextId
  }

  /** One span: its extract action lists its propositions, and its latest verify action either
      vouches for them or verified a generation that is gone. Without that voucher only what was
      replayed from another span has a score. */
  ghost predicate SpanSound(db: Db, s: SpanId, quality: real) {
    var ps, e, v := PropsOf(db, s), LastExtract(db.log, s), LastVerify(db.log, s);
    && Older(Ids(ps), db.nextId)
    && (forall i :: 0 <= i < |ps| ==> FlaggedRight(ps[i]))
    && (e.None? ==> ps == [])
    && (e.Some? ==> e.value.Extract? && e.value.props == Ids(ps) && (e.value.source.None? ==> e.value.reused.None?))
    && (v.Some? ==> v.value.Verify? && Older(v.value.props, db.nextId))
    && (v.Some? ==> Vouches(v.value, ps, quality) || !Intersects(v.value.props, Ids(ps)))
    && (v.None? || !Vouches(v.value, ps, quality) ==>
          (e.Some? && e.value.source.Some?) || forall i :: 0 <= i < |ps| ==> ps[i].faithfulness.None?)
  }

  ghost predicate Sound(db: Db, quality: SpanId -> real) {
    forall s {:trigger SpanSound(db, s, quality(s))} :: SpanSound(db, s, quality(s))
  }

  /** The span's propositions carry scores of verdicts that verifier gave for them. */
  ghost predicate ScoredBy(db: Db, s: SpanId, quality: real, sig: Sig) {
    var ps, v := PropsOf(db, s), LastVerify(db.log, s);
    && v.Some? && v.value.Verify? && v.value.who == sig && |v.value.rows| == |ps|
    && forall i :: 0 <= i < |ps| ==>
         v.value.rows[i].prop == ps[i].id && v.value.rows[i].verdict.Some?
         && ps[i].faithfulness == Faithfulness(v.value.rows[i].verdict, ps[i].agreement, quality)
  }

  /** The identity rests on a replay: the span was copied from one that answered with it. */
  ghost predicate ReplayedUnder(db: Db, s: SpanId, sig: Sig) {
    var e := LastExtract(db.log, s);
    e.Some? && e.value.Extract? && e.value.source.Some? && e.value.reused == Some(sig)
  }

  /** The guarantee behind the identity: a span that answers with one was scored by that verifier,
      or was replayed under its name. */
  lemma IdentityMeansVerified(db: Db, s: SpanId, quality: real, sig: Sig)
    requires SpanSound(db, s, quality) && SpanVerifyIdentity(db, s) == Some(sig)
    ensures ScoredBy(db, s, quality, sig) || ReplayedUnder(db, s, sig)
  {
  }

  // ---------------------------------------------------------------- it is kept

  lemma FreshIdsAreNew(ids: seq<PropId>, nextId: nat, drafts: seq<Draft>, verdicts: seq<Option<Verdict>>, quality: real)
    requires Older(ids, nextId) && |verdicts| == |drafts|
    ensures !Intersects(ids, Ids(Minted(nextId, drafts, verdicts, quality)))
  {
    var ps := Minted(nextId, drafts, verdicts, quality);
    forall id | id in ids
      ensures id !in Ids(ps)
    {
    }
  }

  lemma MintedAreVouched(s: SpanId, nextId: nat, drafts: seq<Draft>, who: Sig,
                         verdicts: seq<Option<Verdict>>, quality: real)
    requires |verdicts| == |drafts|
    ensures var ps := Minted(nextId, drafts, verdicts, quality);
            Vouches(VerifyAction(s, who, ps, verdicts), ps, quality)
  {
    assert None !in verdicts ==> forall i :: 0 <= i < |verdicts| ==> verdicts[i] in verdicts;
  }

  lemma RescoredAreVouched(s: SpanId, ps: seq<Prop>, who: Sig, verdicts: seq<Option<Verdict>>, quality: real)
    requires |verdicts| == |ps|
    ensures var scored := Rescored(ps, verdicts, quality);
            Vouches(VerifyAction(s, who, scored, verdicts), scored, quality) && Ids(scored) == Ids(ps)
            && forall i :: 0 <= i < |scored| ==> FlaggedRight(scored[i])
  {
    assert None !in verdicts ==> forall i :: 0 <= i < |verdicts| ==> verdicts[i] in verdicts;
    assert Ids(Rescored(ps, verdicts, quality)) == Ids(ps);
  }

  /** Extraction keeps a span sound, with or without a verifier, clean or degraded. A purge is
      owed unless the span was never extracted. */
  lemma PersistKeepsSpan(db: Db, s: SpanId, hash: Hash, drafts: seq<Draft>, verifier: Option<Sig>,
                         verdicts: seq<Option<Verdict>>, quality: real, purge: bool)
    requires SpanSound(db, s, quality) && |verdicts| == |drafts|
    requires verifier.None? ==> forall i :: 0 <= i < |verdicts| ==> verdicts[i].None?
    requires purge || LastExtract(db.log, s).None?
    ensures SpanSound(Persisted(db, s, hash, drafts, verifier, verdicts, quality, purge), s, quality)
  {
    var ps := Minted(db.nextId, drafts, verdicts, quality);
    var extract := Extract(s, hash, Ids(ps), if purge then Ids(PropsOf(db, s)) else [], None, None);
    var db' := Persisted(db, s, hash, drafts, verifier, verdicts, quality, purge);
    LogAppend(db.log, extract, s);
    MintedFacts(db.nextId, drafts, verdicts, quality);
    assert PropsOf(db', s) == ps;
    if verifier.Some? && drafts != [] {
      var verify := VerifyAction(s, verifier.value, ps, verdicts);
      assert db'.log == db.log + [extract] + [verify];
      LogAppend(db.log + [extract], verify, s);
      MintedAreVouched(s, db.nextId, drafts, verifier.value, verdicts, quality);
    } else {
      assert db'.log == db.log + [extract];
      if LastVerify(db.log, s).Some? {
        FreshIdsAreNew(LastVerify(db.log, s).value.props, db.nextId, drafts, verdicts, quality);
      }
    }
  }

  lemma MintedFacts(nextId: nat, drafts: seq<Draft>, verdicts: seq<Option<Verdict>>, quality: real)
    requires |verdicts| == |drafts|
    ensures var ps := Minted(nextId, drafts, verdicts, quality);
            Older(Ids(ps), nextId + |drafts|) && |ps| == |drafts|
            && forall i :: 0 <= i < |ps| ==> FlaggedRight(ps[i]) && (verdicts[i].None? ==> ps[i].faithfulness.None?)
  {
  }

  lemma ReverifyKeepsSpan(db: Db, s: SpanId, who: Sig, verdicts: seq<Option<Verdict>>, quality: real)
    requires SpanSound(db, s, quality) && |verdicts| == |PropsOf(db, s)|
    ensures SpanSound(Reverified(db, s, who, verdicts, quality), s, quality)
  {
    var ps := PropsOf(db, s);
    if ps != [] {
      RescoredAreVouched(s, ps, who, verdicts, quality);
      LogAppend(db.log, VerifyAction(s, who, Rescored(ps, verdicts, quality), verdicts), s);
    }
  }

  /** A transaction on one span leaves every other span's answers alone. */
  ghost predicate Untouched(db: Db, db': Db, s: SpanId) {
    PropsOf(db', s) == PropsOf(db, s) && LastExtract(db'.log, s) == LastExtract(db.log, s)
    && LastVerify(db'.log, s) == LastVerify(db.log, s)
  }

  lemma UntouchedKeepsSpan(db: Db, db': Db, s: SpanId, quality: real)
    requires SpanSound(db, s, quality) && Untouched(db, db', s) && db.nextId <= db'.nextId
    ensures SpanSound(db', s, quality)
  {
  }

  /** One extraction appends its extract action, and a verify action if there is anything to verify. */
  lemma PersistedIs(db: Db, s: SpanId, hash: Hash, drafts: seq<Draft>, verifier: Option<Sig>,
                    verdicts: seq<Option<Verdict>>, quality: real, purge: bool)
    requires |verdicts| == |drafts|
    ensures var ps := Minted(db.nextId, drafts, verdicts, quality);
            var extract := Extract(s, hash, Ids(ps), if purge then Ids(PropsOf(db, s)) else [], None, None);
            var db' := Persisted(db, s, hash, drafts, verifier, verdicts, quality, purge);
            && |ps| == |drafts| && db'.nextId == db.nextId + |drafts|
            && PropsOf(db', s) == (if purge then [] else PropsOf(db, s)) + ps
            && (forall t :: t != s ==> PropsOf(db', t) == PropsOf(db, t))
            && db'.log
               == if verifier.Some? && drafts != []
                  then db.log + [extract] + [VerifyAction(s, verifier.value, ps, verdicts)]
                  else db.log + [extract]
  {
    hide VerifyAction, Ids;
    var ps := Minted(db.nextId, drafts, verdicts, quality);
    var extract := Extract(s, hash, Ids(ps), if purge then Ids(PropsOf(db, s)) else [], None, None);
    assert db.log + [extract] + [] == db.log + [extract];
  }

  lemma PersistTouchesOne(db: Db, s: SpanId, hash: Hash, drafts: seq<Draft>, verifier: Option<Sig>,
                          verdicts: seq<Option<Verdict>>, quality: real, purge: bool, t: SpanId)
    requires |verdicts| == |drafts| && t != s
    ensures Untouched(db, Persisted(db, s, hash, drafts, verifier, verdicts, quality, purge), t)
  {
    hide PropsOf, Persisted, Minted, Ids, LastExtract, LastVerify, RowsOf;
    PersistedIs(db, s, hash, drafts, verifier, verdicts, quality, purge);
    var ps := Minted(db.nextId, drafts, verdicts, quality);
    var extract := Extract(s, hash, Ids(ps), if purge then Ids(PropsOf(db, s)) else [], None, None);
    LogAppend(db.log, extract, t);
    if verifier.Some? && drafts != [] {
      LogAppend(db.log + [extract], VerifyAction(s, verifier.value, ps, verdicts), t);
    }
  }

  lemma ReverifyTouchesOne(db: Db, s: SpanId, who: Sig, verdicts: seq<Option<Verdict>>, quality: real, t: SpanId)
    requires |verdicts| == |PropsOf(db, s)| && t != s
    ensures Untouched(db, Reverified(db, s, who, verdicts, quality), t)
  {
    var ps := PropsOf(db, s);
    if ps != [] {
      LogAppend(db.log, VerifyAction(s, who, Rescored(ps, verdicts, quality), verdicts), t);
    }
  }

  lemma PersistKeepsSound(db: Db, s: SpanId, hash: Hash, drafts: seq<Draft>, verifier: Option<Sig>,
                          verdicts: seq<Option<Verdict>>, quality: SpanId -> real, purge: bool)
    requires Sound(db, quality) && |verdicts| == |drafts|
    requires verifier.None? ==> forall i :: 0 <= i < |verdicts| ==> verdicts[i].None?
    requires purge || LastExtract(db.log, s).None?
    ensures Sound(Persisted(db, s, hash, drafts, verifier, verdicts, quality(s), purge), quality)
  {
    hide SpanSound, Persisted, Untouched;
    var db' := Persisted(db, s, hash, drafts, verifier, verdicts, quality(s), purge);
    assert db'.nextId >= db.nextId by { PersistGrows(db, s, hash, drafts, verifier, verdicts, quality(s), purge); }
    forall t
      ensures SpanSound(db', t, quality(t))
    {
      assert SpanSound(db, t, quality(t));
      if t == s {
        PersistKeepsSpan(db, s, hash, drafts, verifier, verdicts, quality(s), purge);
      } else {
        PersistTouchesOne(db, s, hash, drafts, verifier, verdicts, quality(s), purge, t);
        UntouchedKeepsSpan(db, db', t, quality(t));
      }
    }
  }

  lemma PersistGrows(db: Db, s: SpanId, hash: Hash, drafts: seq<Draft>, verifier: Option<Sig>,
                     verdicts: seq<Option<Verdict>>, quality: real, purge: bool)
    requires |verdicts| == |drafts|
    ensures var db' := Persisted(db, s, hash, drafts, verifier, verdicts, quality, purge);
            db.nextId <= db'.nextId && db.log < db'.log
  {
  }

  lemma ReverifyKeepsSound(db: Db, s: SpanId, who: Sig, verdicts: seq<Option<Verdict>>, quality: SpanId -> real)
    requires Sound(db, quality) && |verdicts| == |PropsOf(db, s)|
    ensures Sound(Reverified(db, s, who, verdicts, quality(s)), quality)
  {
    hide SpanSound, Reverified, Untouched;
    var db' := Reverified(db, s, who, verdicts, quality(s));
    assert db'.nextId == db.nextId by { ReverifyMintsNothing(db, s, who, verdicts, quality(s)); }
    forall t
      ensures SpanSound(db', t, quality(t))
    {
      assert SpanSound(db, t, quality(t));
      if t == s {
        ReverifyKeepsSpan(db, s, who, verdicts, quality(s));
      } else {
        ReverifyTouchesOne(db, s, who, verdicts, quality(s), t);
        UntouchedKeepsSpan(db, db', t, quality(t));
      }
    }
  }

  /** Re-verification appends at most one action, mints no id and keeps every proposition. */
  lemma ReverifyMintsNothing(db: Db, s: SpanId, who: Sig, verdicts: seq<Option<Verdict>>, quality: real)
    requires |verdicts| == |PropsOf(db, s)|
    ensures var db' := Reverified(db, s, who, verdicts, quality);
            db'.nextId == db.nextId && db.log <= db'.log && Ids(PropsOf(db', s)) == Ids(PropsOf(db, s))
            && LastExtract(db'.log, s) == LastExtract(db.log, s)
  {
    var ps := PropsOf(db, s);
    if ps != [] {
      RescoredAreVouched(s, ps, who, verdicts, quality);
      LogAppend(db.log, VerifyAction(s, who, Rescored(ps, verdicts, quality), verdicts), s);
    }
  }

  // ---------------------------------------------------------------- replayed extractions

  /** A committed extraction, as it is read back for replay into another span. */
  datatype Reusable = Reusable(source: SpanId, props: seq<Prop>, sig: Option<Sig>)

  /** The newest extraction under this hash, of whatever span. */
  function LastWithHash(log: seq<Action>, hash: Hash): Option<Action> {
    if log == [] then None
    else if log[|log| - 1].Extract? && log[|log| - 1].hash == hash then Some(log[|log| - 1])
    else LastWithHash(log[..|log| - 1], hash)
  }

  function WithId(ps: seq<Prop>, id: PropId): Option<Prop> {
    if ps == [] then None
    else if ps[|ps| - 1].id == id then Some(ps[|ps| - 1])
    else WithId(ps[..|ps| - 1], id)
  }

  /** The propositions with these ids, in this order, if none of them is gone. */
  function ReadBack(ps: seq<Prop>, ids: seq<PropId>): Option<seq<Prop>> {
    if ids == [] then Some([])
    else
      var front, p := ReadBack(ps, ids[..|ids| - 1]), WithId(ps, ids[|ids| - 1]);
      if front.Some? && p.Some? then Some(front.value + [p.value]) else None
  }

  /** The identity the source was last verified under, whichever generation that was. */
  function SourceSig(log: seq<Action>, s: SpanId): Option<Sig> {
    match LastVerify(log, s)
    case None => None
    case Some(a) => if a.Verify? then a.sig else None
  }

  function FindReusable(db: Db, hash: Hash): Option<Reusable> {
    match LastWithHash(db.log, hash)
    case None => None
    case Some(a) =>
      if !a.Extract? then None
      else
        match ReadBack(PropsOf(db, a.span), a.props)
        case None => None
        case Some(ps) => Some(Reusable(a.span, ps, SourceSig(db.log, a.span)))
  }

  /** A copy keeps its score only if the source's verifier is the present one. */
  function CopyOf(p: Prop, id: PropId, trusted: bool): Prop {
    var score := if trusted then p.faithfulness else None;
    Prop(id, p.agreement, score, (if trusted then p.reasons else Reassess(p.reasons, None)) + ReasonsFor(score), p.space)
  }

  function Copies(nextId: nat, r: Reusable, present: Option<Sig>): seq<Prop> {
    seq(|r.props|, i requires 0 <= i < |r.props| => CopyOf(r.props[i], PropId(nextId + i), r.sig == present))
  }

  /** One replay transaction: fresh copies and an extract action with the source's identity, even
      if the copies lost their scores. */
  function Replayed(db: Db, s: SpanId, hash: Hash, r: Reusable, present: Option<Sig>, purge: bool): Db {
    var kept := if purge then [] else PropsOf(db, s);
    var copies := Copies(db.nextId, r, present);
    var extract := Extract(s, hash, Ids(copies), if purge then Ids(PropsOf(db, s)) else [], Some(r.source), r.sig);
    Db(db.log + [extract], db.props[s := kept + copies], db.nextId + |r.props|)
  }

  ghost predicate AllFlagged(ps: seq<Prop>) {
    forall i :: 0 <= i < |ps| ==> FlaggedRight(ps[i])
  }

  ghost predicate AllAssessed(ps: seq<Prop>) {
    forall i :: 0 <= i < |ps| ==> ps[i].faithfulness.Some?
  }

  lemma {:induction false} ReadBackIsFlagged(ps: seq<Prop>, ids: seq<PropId>)
    requires AllFlagged(ps)
    ensures ReadBack(ps, ids).Some? ==> AllFlagged(ReadBack(ps, ids).value) && |ReadBack(ps, ids).value| == |ids|
  {
    hide FlaggedRight;
    if ids != [] {
      ReadBackIsFlagged(ps, ids[..|ids| - 1]);
      WithIdIsIn(ps, ids[|ids| - 1]);
    }
  }

  lemma {:induction false} WithIdIsIn(ps: seq<Prop>, id: PropId)
    ensures WithId(ps, id).Some? ==> exists i :: 0 <= i < |ps| && ps[i] == WithId(ps, id).value
  {
    if ps != [] && ps[|ps| - 1].id != id {
      WithIdIsIn(ps[..|ps| - 1], id);
      if WithId(ps, id).Some? {
        var i :| 0 <= i < |ps| - 1 && ps[..|ps| - 1][i] == WithId(ps, id).value;
        assert ps[i] == WithId(ps, id).value;
      }
    }
  }

  lemma ReusableIsFlagged(db: Db, hash: Hash, quality: SpanId -> real)
    requires Sound(db, quality) && FindReusable(db, hash).Some?
    ensures AllFlagged(FindReusable(db, hash).value.props)
  {
    var a := LastWithHash(db.log, hash).value;
    assert SpanSound(db, a.span, quality(a.span));
    ReadBackIsFlagged(PropsOf(db, a.span), a.props);
  }

  lemma CopiesFacts(nextId: nat, r: Reusable, present: Option<Sig>)
    requires AllFlagged(r.props)
    ensures var ps := Copies(nextId, r, present);
            && |ps| == |r.props| && AllFlagged(ps) && Older(Ids(ps), nextId + |ps|)
            && (AllAssessed(ps) <==> r.props == [] || (r.sig == present && AllAssessed(r.props)))
  {
    var ps := Copies(nextId, r, present);
    assert forall i :: 0 <= i < |r.props| ==> FlaggedRight(r.props[i]);
    assert forall i :: 0 <= i < |ps| ==> (ps[i].faithfulness.Some? <==> r.sig == present && r.props[i].faithfulness.Some?);
    if r.props != [] && r.sig != present {
      assert ps[0].faithfulness.None?;
    }
  }

  lemma CopiesAreNew(ids: seq<PropId>, nextId: nat, r: Reusable, present: Option<Sig>)
    requires Older(ids, nextId)
    ensures !Intersects(ids, Ids(Copies(nextId, r, present)))
  {
    var ps := Copies(nextId, r, present);
    assert forall id :: id in ids ==> id.serial < nextId;
    assert forall i :: 0 <= i < |ps| ==> Ids(ps)[i].serial >= nextId;
  }

  /** What one replay leaves behind. */
  lemma ReplayedIs(db: Db, s: SpanId, hash: Hash, r: Reusable, present: Option<Sig>, purge: bool)
    ensures var ps := Copies(db.nextId, r, present);
            var extract := Extract(s, hash, Ids(ps), if purge then Ids(PropsOf(db, s)) else [], Some(r.source), r.sig);
            var db' := Replayed(db, s, hash, r, present, purge);
            && |ps| == |r.props| && db'.nextId == db.nextId + |r.props| && db'.log == db.log + [extract]
            && PropsOf(db', s) == (if purge then [] else PropsOf(db, s)) + ps
            && (forall t :: t != s ==> PropsOf(db', t) == PropsOf(db, t))
  {
  }

  /** A replay keeps a span sound, whatever became of the scores. */
  lemma ReplayKeepsSpan(db: Db, s: SpanId, hash: Hash, r: Reusable, present: Option<Sig>, purge: bool, quality: real)
    requires SpanSound(db, s, quality) && AllFlagged(r.props) && (purge || LastExtract(db.log, s).None?)
    ensures SpanSound(Replayed(db, s, hash, r, present, purge), s, quality)
  {
    hide *;
    var ps, db' := Copies(db.nextId, r, present), Replayed(db, s, hash, r, present, purge);
    SoundMeans(db, s, quality);
    ReplayedIs(db, s, hash, r, present, purge);
    CopiesFacts(db.nextId, r, present);
    var extract := Extract(s, hash, Ids(ps), if purge then Ids(PropsOf(db, s)) else [], Some(r.source), r.sig);
    LogAppend(db.log, extract, s);
    assert [] + ps == ps;
    var v := LastVerify(db.log, s);
    if v.Some? {
      OlderLater(v.value.props, db.nextId, db'.nextId);
      CopiesAreNew(v.value.props, db.nextId, r, present);
    }
    SoundAfterReplay(db', s, quality, ps, extract);
  }

  lemma SoundMeans(db: Db, s: SpanId, quality: real)
    requires SpanSound(db, s, quality)
    ensures LastExtract(db.log, s).None? ==> PropsOf(db, s) == []
    ensures LastVerify(db.log, s).Some? ==>
              LastVerify(db.log, s).value.Verify? && Older(LastVerify(db.log, s).value.props, db.nextId)
  {
  }

  lemma OlderLater(ids: seq<PropId>, nextId: nat, later: nat)
    requires Older(ids, nextId) && nextId <= later
    ensures Older(ids, later)
  {
  }

  /** New copies under a replayed extraction, and a last verification of others, if any. */
  lemma SoundAfterReplay(db: Db, s: SpanId, quality: real, ps: seq<Prop>, extract: Action)
    requires PropsOf(db, s) == ps && AllFlagged(ps) && Older(Ids(ps), db.nextId)
    requires LastExtract(db.log, s) == Some(extract)
    requires extract.Extract? && extract.props == Ids(ps) && extract.source.Some?
    requires LastVerify(db.log, s).Some? ==>
               && LastVerify(db.log, s).value.Verify? && Older(LastVerify(db.log, s).value.props, db.nextId)
               && !Intersects(LastVerify(db.log, s).value.props, Ids(ps))
    ensures SpanSound(db, s, quality)
  {
    hide PropsOf, LastExtract, LastVerify, Vouches, FlaggedRight, Older, Intersects;
  }

  lemma ReplayTouchesOne(db: Db, s: SpanId, hash: Hash, r: Reusable, present: Option<Sig>, purge: bool, t: SpanId)
    requires t != s
    ensures Untouched(db, Replayed(db, s, hash, r, present, purge), t)
  {
    ReplayedIs(db, s, hash, r, present, purge);
    LogAppend(db.log, Replayed(db, s, hash, r, present, purge).log[|db.log|], t);
    hide Replayed, PropsOf, LastExtract, LastVerify;
  }

  lemma ReplayKeepsSound(db: Db, s: SpanId, hash: Hash, r: Reusable, present: Option<Sig>, purge: bool,
                         quality: SpanId -> real)
    requires Sound(db, quality) && AllFlagged(r.props) && (purge || LastExtract(db.log, s).None?)
    ensures Sound(Replayed(db, s, hash, r, present, purge), quality)
  {
    hide SpanSound, Untouched, AllFlagged;
    var db' := Replayed(db, s, hash, r, present, purge);
    forall t
      ensures SpanSound(db', t, quality(t))
    {
      assert SpanSound(db, t, quality(t));
      if t == s {
        ReplayKeepsSpan(db, s, hash, r, present, purge, quality(s));
      } else {
        ReplayTouchesOne(db, s, hash, r, present, purge, t);
        UntouchedKeepsSpan(db, db', t, quality(t));
      }
    }
  }

  /** An answered identity means that every proposition has a score. */
  ghost predicate Backed(db: Db, s: SpanId) {
    SpanVerifyIdentity(db, s).Some? ==> AllAssessed(PropsOf(db, s))
  }

  /** A replayed span answers with its source's verifier. That answer is backed exactly when there
      is nothing to score, no verifier to name, or the source was fully scored by the present one. */
  lemma ReplayIsBackedExactlyWhen(db: Db, s: SpanId, hash: Hash, r: Reusable, present: Option<Sig>, purge: bool,
                                  quality: real)
    requires SpanSound(db, s, quality) && AllFlagged(r.props) && (purge || LastExtract(db.log, s).None?)
    ensures var db' := Replayed(db, s, hash, r, present, purge);
            && SpanVerifyIdentity(db', s) == r.sig
            && (Backed(db', s) <==> r.props == [] || r.sig.None? || (r.sig == present && AllAssessed(r.props)))
  {
    var ps, db' := Copies(db.nextId, r, present), Replayed(db, s, hash, r, present, purge);
    ReplayedIs(db, s, hash, r, present, purge);
    CopiesFacts(db.nextId, r, present);
    if LastVerify(db.log, s).Some? {
      CopiesAreNew(LastVerify(db.log, s).value.props, db.nextId, r, present);
    }
    LogAppend(db.log, Extract(s, hash, Ids(ps), if purge then Ids(PropsOf(db, s)) else [], Some(r.source), r.sig), s);
    assert PropsOf(db', s) == ps;
    hide Copies, Replayed, Intersects, AllAssessed;
  }
}
