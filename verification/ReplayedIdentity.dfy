/**
 What extraction reuse does to the verify identity of src/iknos/core/proposition.py. A replay
 stamps the span with the identity its source was last verified under (line 885), also when the
 copies lost their scores because the present verifier is another one, and also when that
 verification was of an earlier generation of the source.

 `RunBacksExactlyWhen` says, span by span, when a run leaves an answered identity backed by
 scores. Where it does not, the stamp can equal the verifier of every later run, and then the
 propositions stay unassessed for good (`ReplayWithoutVerifierIsNeverAssessed`,
 `ReplayOfAnUnverifiedGenerationIsNeverAssessed`).
 */
module ReplayedIdentity {
  import opened Sets
  import opened DerivationAdapter
  import opened PropositionLog
  import opened Proposition

  function StampOf(db: Db, s: SpanId): Option<Sig> {
    match LastExtract(db.log, s)
    case None => None
    case Some(a) => if a.Extract? then a.reused else None
  }

  // ---------------------------------------------------------------- one re-verification

  /** The verification pass re-scores the span's propositions. */
  predicate Reverifies(db: Db, cfg: Config, env: Env, s: SpanId) {
    cfg.verifier.Some? && SpanVerifyIdentity(db, s) != cfg.verifier && !env.backfillRaises(s) && PropsOf(db, s) != []
  }

  /** A degraded pass names no verifier of its own, so the span answers with the stamp again. */
  ghost predicate PassBacks(db: Db, cfg: Config, env: Env, s: SpanId) {
    if Reverifies(db, cfg, env, s) then None !in Reverdicts(env, s, |PropsOf(db, s)|) || StampOf(db, s).None?
    else Backed(db, s)
  }

  /** What the pass leaves of one span. */
  lemma BackfilledIs(db: Db, cfg: Config, env: Env, s: SpanId)
    ensures var ps, db' := PropsOf(db, s), BackfilledOne(db, cfg, env, s);
            if Reverifies(db, cfg, env, s) then
              var vs := Reverdicts(env, s, |ps|);
              var scored := Rescored(ps, vs, cfg.quality(s));
              PropsOf(db', s) == scored && LastExtract(db'.log, s) == LastExtract(db.log, s)
              && LastVerify(db'.log, s) == Some(VerifyAction(s, cfg.verifier.value, scored, vs))
            else db' == db
  {
    if Reverifies(db, cfg, env, s) {
      var vs := Reverdicts(env, s, |PropsOf(db, s)|);
      LogAppend(db.log, VerifyAction(s, cfg.verifier.value, Rescored(PropsOf(db, s), vs, cfg.quality(s)), vs), s);
      hide Rescored, Reverdicts, LastVerify, LastExtract, SpanVerifyIdentity;
    }
  }

  lemma BackfillBacks(db: Db, cfg: Config, env: Env, s: SpanId)
    requires SpanSound(db, s, cfg.quality(s))
    ensures Backed(BackfilledOne(db, cfg, env, s), s) <==> PassBacks(db, cfg, env, s)
  {
    var ps, db' := PropsOf(db, s), BackfilledOne(db, cfg, env, s);
    BackfilledIs(db, cfg, env, s);
    if Reverifies(db, cfg, env, s) {
      var vs := Reverdicts(env, s, |ps|);
      RescoredAssessed(ps, vs, cfg.quality(s));
      hide Rescored, SpanSound, Reverdicts, RowsOf, AllAssessed, BackfilledOne, PropsOf, LastExtract, LastVerify,
        Reverifies;
      var scored := Rescored(ps, vs, cfg.quality(s));
      assert |Ids(scored)| > 0 && Ids(scored)[0] in Ids(scored);
    }
  }

  lemma RescoredAssessed(ps: seq<Prop>, vs: seq<Option<Verdict>>, quality: real)
    requires |vs| == |ps|
    ensures AllAssessed(Rescored(ps, vs, quality)) <==> None !in vs
  {
    var scored := Rescored(ps, vs, quality);
    assert forall i :: 0 <= i < |ps| ==> (scored[i].faithfulness.Some? <==> vs[i].Some?);
    if None in vs {
      var i :| 0 <= i < |vs| && vs[i] == None;
      assert scored[i].faithfulness.None?;
    } else {
      assert forall i :: 0 <= i < |vs| ==> vs[i] in vs;
    }
  }

  /** What the pass does to a span depends on that span alone. */
  lemma SameBackfill(db: Db, db': Db, cfg: Config, env: Env, s: SpanId)
    requires Untouched(db, db', s)
    ensures Untouched(BackfilledOne(db, cfg, env, s), BackfilledOne(db', cfg, env, s), s)
  {
    BackfilledIs(db, cfg, env, s);
    BackfilledIs(db', cfg, env, s);
    UntouchedBacked(db, db', s);
    hide BackfilledOne, SpanVerifyIdentity, PropsOf, LastVerify, LastExtract, VerifyAction, Rescored, Reverdicts, Backed,
      StampOf;
  }

  lemma {:induction false} BackfilledAt(db: Db, cfg: Config, env: Env, spans: seq<SpanId>, s: SpanId)
    requires Distinct(spans) && s in spans
    ensures Untouched(BackfilledOne(db, cfg, env, s), Backfilled(db, cfg, env, spans), s)
  {
    hide Distinct, Untouched, BackfilledOne;
    var front, last := spans[..|spans| - 1], spans[|spans| - 1];
    assert spans == front + [last];
    DistinctFront(front, last);
    var mid := Backfilled(db, cfg, env, front);
    if s == last {
      BackfilledTouchesSpans(db, cfg, env, front, s);
      SameBackfill(db, mid, cfg, env, s);
    } else {
      BackfilledAt(db, cfg, env, front, s);
      OthersBackfill(mid, cfg, env, last, s);
      UntouchedTransitive(BackfilledOne(db, cfg, env, s), mid, BackfilledOne(mid, cfg, env, last), s);
    }
  }

  lemma OthersBackfill(db: Db, cfg: Config, env: Env, s: SpanId, t: SpanId)
    requires s != t
    ensures Untouched(db, BackfilledOne(db, cfg, env, s), t)
  {
    if BackfilledOne(db, cfg, env, s) != db {
      ReverifyTouchesOne(db, s, cfg.verifier.value, Reverdicts(env, s, |PropsOf(db, s)|), cfg.quality(s), t);
    }
  }

  lemma UntouchedBacked(db: Db, db': Db, s: SpanId)
    requires Untouched(db, db', s)
    ensures Backed(db', s) <==> Backed(db, s)
    ensures SpanVerifyIdentity(db', s) == SpanVerifyIdentity(db, s) && StampOf(db', s) == StampOf(db, s)
  {
  }

  /** Without a stamp an answered identity is always backed. */
  lemma UnstampedIsBacked(db: Db, s: SpanId, quality: real)
    requires SpanSound(db, s, quality) && StampOf(db, s).None?
    ensures Backed(db, s)
  {
  }

  // ---------------------------------------------------------------- one run

  /** When the replay of `r` leaves the span backed at the end of the run. */
  ghost predicate ReplayBacks(cfg: Config, env: Env, s: SpanId, r: Reusable) {
    || r.props == [] || r.sig.None?
    || (if r.sig == cfg.verifier then AllAssessed(r.props)
        else cfg.verifier.Some? && !env.backfillRaises(s) && None !in Reverdicts(env, s, |r.props|))
  }

  ghost predicate RunBacks(db: Db, cfg: Config, env: Env, s: SpanId) {
    if Owed(db, cfg, s) && Lands(db, cfg, env, s) then
      Reuse(db, cfg, s).None? || ReplayBacks(cfg, env, s, Reuse(db, cfg, s).value)
    else PassBacks(db, cfg, env, s)
  }

  /** The span right after its replay. */
  lemma {:induction false} ReplayedAt(start: Db, db: Db, cfg: Config, env: Env, toReplay: seq<SpanId>, s: SpanId)
    returns (before: Db)
    requires Sound(start, cfg.quality) && Sound(db, cfg.quality) && Distinct(toReplay)
    requires s in toReplay && Reuse(start, cfg, s).Some? && ReplayCommits(env, s)
    requires forall t :: t in toReplay ==> Owed(start, cfg, t) && Untouched(start, db, t)
    ensures Untouched(db, before, s) && Sound(before, cfg.quality)
    ensures Untouched(Replayed(before, s, cfg.hash(s), Reuse(start, cfg, s).value, cfg.verifier, Superseded(start, cfg, s)),
                      ReplayedAll(start, db, cfg, env, toReplay), s)
  {
    hide Distinct, Untouched, Replayed, Reuse, Superseded, Owed, Sound;
    var front, last := toReplay[..|toReplay| - 1], toReplay[|toReplay| - 1];
    assert toReplay == front + [last];
    DistinctFront(front, last);
    var mid := ReplayedAll(start, db, cfg, env, front);
    if s == last {
      before := mid;
      ReplayedKeepsSound(start, db, cfg, env, front);
      ReplayedTouches(start, db, cfg, env, front, s);
      UntouchedReflexive(ReplayedAll(start, db, cfg, env, toReplay), s);
    } else {
      before := ReplayedAt(start, db, cfg, env, front, s);
      var after := ReplayedOne(start, mid, cfg, env, last);
      UntouchedReflexive(mid, s);
      if after != mid {
        ReplayTouchesOne(mid, last, cfg.hash(last), Reuse(start, cfg, last).value, cfg.verifier,
                         Superseded(start, cfg, last), s);
      }
      UntouchedTransitive(Replayed(before, s, cfg.hash(s), Reuse(start, cfg, s).value, cfg.verifier,
                                   Superseded(start, cfg, s)), mid, after, s);
    }
  }

  /** A replayed span before the verification pass: its stamp, its copies, and what the pass makes
      of them. */
  lemma ReplayThenPass(db: Db, cfg: Config, env: Env, s: SpanId, r: Reusable, purge: bool)
    requires SpanSound(db, s, cfg.quality(s)) && AllFlagged(r.props) && (purge || LastExtract(db.log, s).None?)
    ensures PassBacks(Replayed(db, s, cfg.hash(s), r, cfg.verifier, purge), cfg, env, s) <==> ReplayBacks(cfg, env, s, r)
  {
    var db' := Replayed(db, s, cfg.hash(s), r, cfg.verifier, purge);
    ReplayIsBackedExactlyWhen(db, s, cfg.hash(s), r, cfg.verifier, purge, cfg.quality(s));
    ReplayedIs(db, s, cfg.hash(s), r, cfg.verifier, purge);
    LogAppend(db.log, db'.log[|db.log|], s);
    assert PropsOf(db', s) == Copies(db.nextId, r, cfg.verifier) by {
      if !purge {
        assert PropsOf(db, s) == [];
      }
    }
    assert StampOf(db', s) == r.sig;
    hide *;
    StampedPass(db', cfg, env, s, r);
  }

  lemma StampedPass(db: Db, cfg: Config, env: Env, s: SpanId, r: Reusable)
    requires StampOf(db, s) == r.sig == SpanVerifyIdentity(db, s) && |PropsOf(db, s)| == |r.props|
    requires Backed(db, s) <==> r.props == [] || r.sig.None? || (r.sig == cfg.verifier && AllAssessed(r.props))
    ensures PassBacks(db, cfg, env, s) <==> ReplayBacks(cfg, env, s, r)
  {
    hide StampOf, SpanVerifyIdentity, PropsOf, Backed, AllAssessed, Reverdicts;
    assert PropsOf(db, s) == [] <==> r.props == [];
  }

  lemma PassOfUntouched(db: Db, db': Db, cfg: Config, env: Env, s: SpanId)
    requires Untouched(db, db', s)
    ensures PassBacks(db', cfg, env, s) <==> PassBacks(db, cfg, env, s)
  {
    UntouchedBacked(db, db', s);
    hide Backed, SpanVerifyIdentity, StampOf, Reverdicts;
  }

  /** Inference leaves no stamp. */
  lemma {:induction false} InferredIsUnstamped(start: Db, cfg: Config, env: Env, pending: seq<SpanId>, s: SpanId)
    requires Distinct(pending) && s in pending && Commits(env, s)
    ensures StampOf(Extracted(start, cfg, env, pending), s).None?
  {
    hide Distinct, Superseded;
    var front, last := pending[..|pending| - 1], pending[|pending| - 1];
    assert pending == front + [last];
    DistinctFront(front, last);
    var db := Extracted(start, cfg, env, front);
    if Commits(env, last) {
      var ds := Inferred(cfg, env, last);
      var vs := VerdictsFor(cfg, env, last, |ds|);
      var purge := Superseded(start, cfg, last);
      hide Persisted, Minted, RowsOf, VerdictsFor, Ids, LastVerify, LastExtract, PropsOf;
      if s == last {
        PersistedIs(db, s, cfg.hash(s), ds, cfg.verifier, vs, cfg.quality(s), purge);
        var ps := Minted(db.nextId, ds, vs, cfg.quality(s));
        var extract := Extract(s, cfg.hash(s), Ids(ps), if purge then Ids(PropsOf(db, s)) else [], None, None);
        LogAppend(db.log, extract, s);
        if cfg.verifier.Some? && ds != [] {
          LogAppend(db.log + [extract], VerifyAction(s, cfg.verifier.value, ps, vs), s);
        }
      } else {
        InferredIsUnstamped(start, cfg, env, front, s);
        PersistTouchesOne(db, last, cfg.hash(last), ds, cfg.verifier, vs, cfg.quality(last), purge, s);
      }
    } else {
      InferredIsUnstamped(start, cfg, env, front, s);
    }
  }

  lemma WrittenBacks(db: Db, cfg: Config, env: Env, spans: seq<SpanId>, s: SpanId)
    requires Sound(db, cfg.quality) && Distinct(spans) && s in spans
    ensures PassBacks(Written(db, cfg, env, spans), cfg, env, s) <==> RunBacks(db, cfg, env, s)
  {
    hide Sound, Distinct, Extracted, ReplayedAll, Reuse, Commits, ReplayCommits, PassBacks, ReplayBacks, Owed, Untouched;
    PendingIs(db, cfg, spans);
    var pending, toReplay := Pending(db, cfg, spans), ToReplay(db, cfg, spans);
    var mid, end := Extracted(db, cfg, env, pending), Written(db, cfg, env, spans);
    if !Owed(db, cfg, s) || !Lands(db, cfg, env, s) {
      WrittenTouches(db, cfg, env, spans, s);
      PassOfUntouched(db, end, cfg, env, s);
    } else if Reuse(db, cfg, s).None? {
      InferredIsUnstamped(db, cfg, env, pending, s);
      ReplayedTouches(db, mid, cfg, env, toReplay, s);
      WrittenKeepsSound(db, cfg, env, spans);
      UnstampedPasses(mid, end, cfg, env, s);
    } else {
      InferenceLeavesReplaysAlone(db, cfg, env, spans);
      ExtractedKeepsSound(db, cfg, env, pending);
      var before := ReplayedAt(db, mid, cfg, env, toReplay, s);
      UntouchedTransitive(db, mid, before, s);
      ReplayedSpan(db, before, end, cfg, env, s);
    }
  }

  lemma UnstampedPasses(db: Db, db': Db, cfg: Config, env: Env, s: SpanId)
    requires StampOf(db, s).None? && Untouched(db, db', s) && Sound(db', cfg.quality)
    ensures PassBacks(db', cfg, env, s)
  {
    assert SpanSound(db', s, cfg.quality(s));
    UntouchedBacked(db, db', s);
    UnstampedIsBacked(db', s, cfg.quality(s));
    hide SpanSound, Backed, StampOf, Reverdicts, Reverifies;
  }

  lemma ReplayedSpan(start: Db, before: Db, end: Db, cfg: Config, env: Env, s: SpanId)
    requires Sound(start, cfg.quality) && Sound(before, cfg.quality)
    requires Owed(start, cfg, s) && Untouched(start, before, s) && Reuse(start, cfg, s).Some?
    requires Untouched(Replayed(before, s, cfg.hash(s), Reuse(start, cfg, s).value, cfg.verifier,
                                Superseded(start, cfg, s)), end, s)
    ensures PassBacks(end, cfg, env, s) <==> ReplayBacks(cfg, env, s, Reuse(start, cfg, s).value)
  {
    var r, purge := Reuse(start, cfg, s).value, Superseded(start, cfg, s);
    assert SpanSound(before, s, cfg.quality(s));
    hide *;
    ReuseIsFlagged(start, cfg, s);
    NotSuperseded(start, before, cfg, s);
    ReplayThenPass(before, cfg, env, s, r, purge);
    PassOfUntouched(Replayed(before, s, cfg.hash(s), r, cfg.verifier, purge), end, cfg, env, s);
  }

  /** After a run, a span of the document answers with a backed identity or none, exactly if its
      replay, or the re-verification of what stood there, leaves it so. */
  lemma RunBacksExactlyWhen(db: Db, cfg: Config, env: Env, spans: seq<SpanId>, s: SpanId)
    requires Sound(db, cfg.quality) && Distinct(spans) && s in spans && FirstRefusal(db, cfg, env, spans) == Allowed
    ensures Backed(Ran(db, cfg, env, spans), s) <==> RunBacks(db, cfg, env, s)
  {
    var end := Written(db, cfg, env, spans);
    hide *;
    WrittenKeepsSound(db, cfg, env, spans);
    SoundAt(end, cfg.quality, s);
    WrittenBacks(db, cfg, env, spans, s);
    BackfillBacks(end, cfg, env, s);
    BackfilledAt(end, cfg, env, spans, s);
    UntouchedBacked(BackfilledOne(end, cfg, env, s), Backfilled(end, cfg, env, spans), s);
    RanIs(db, cfg, env, spans);
  }

  lemma SoundAt(db: Db, quality: SpanId -> real, s: SpanId)
    requires Sound(db, quality)
    ensures SpanSound(db, s, quality(s))
  {
  }

  lemma RanIs(db: Db, cfg: Config, env: Env, spans: seq<SpanId>)
    requires FirstRefusal(db, cfg, env, spans) == Allowed
    ensures Ran(db, cfg, env, spans) == Backfilled(Written(db, cfg, env, spans), cfg, env, spans)
  {
  }

  // ---------------------------------------------------------------- settled for good

  lemma SettledFollows(db: Db, db': Db, cfg: Config, s: SpanId)
    requires Untouched(db, db', s)
    ensures Settled(db', cfg, s) <==> Settled(db, cfg, s)
  {
  }

  lemma SettledIsNotReverified(db: Db, cfg: Config, env: Env, s: SpanId)
    requires Settled(db, cfg, s)
    ensures BackfilledOne(db, cfg, env, s) == db
  {
  }

  /** A run leaves a span alone that its settings count as settled, assessed or not. */
  lemma SettledSpanIsLeftAlone(db: Db, cfg: Config, env: Env, spans: seq<SpanId>, s: SpanId)
    requires Distinct(spans) && Settled(db, cfg, s)
    ensures Untouched(db, Ran(db, cfg, env, spans), s)
  {
    hide Distinct, Untouched, Written, Backfilled, BackfilledOne, Lands, SpanVerifyIdentity;
    UntouchedReflexive(db, s);
    if FirstRefusal(db, cfg, env, spans) == Allowed {
      var end := Written(db, cfg, env, spans);
      WrittenTouches(db, cfg, env, spans, s);
      if s in spans {
        SettledFollows(db, end, cfg, s);
        SettledIsNotReverified(end, cfg, env, s);
        BackfilledAt(end, cfg, env, spans, s);
      } else {
        BackfilledTouchesSpans(end, cfg, env, spans, s);
      }
      UntouchedTransitive(db, end, Backfilled(end, cfg, env, spans), s);
    }
  }

  /** Every run has this verifier and finds the span's content as it was. */
  ghost predicate Steady(runs: seq<Run>, who: Option<Sig>, s: SpanId, hash: Hash) {
    forall i :: 0 <= i < |runs| ==> Distinct(runs[i].spans) && runs[i].verifier == who && runs[i].hash(s) == hash
  }

  /** However many runs follow under one verifier, what they count as settled stays as it is. */
  lemma {:induction false} SettledForGood(db: Db, runs: seq<Run>, quality: SpanId -> real, cfg: Config, s: SpanId)
    requires Settled(db, cfg, s) && Steady(runs, cfg.verifier, s, cfg.hash(s))
    ensures Untouched(db, RanAll(db, runs, quality), s)
  {
    hide Settled, Untouched, Ran, Distinct;
    UntouchedReflexive(db, s);
    if runs != [] {
      var r, mid := runs[|runs| - 1], RanAll(db, runs[..|runs| - 1], quality);
      SettledForGood(db, runs[..|runs| - 1], quality, cfg, s);
      SettledFollows(db, mid, cfg, s);
      SameSettings(mid, cfg, SettingsOf(r, quality), s);
      SettledSpanIsLeftAlone(mid, SettingsOf(r, quality), r.env, r.spans, s);
      UntouchedTransitive(db, mid, RanAll(db, runs, quality), s);
    }
  }

  lemma SameSettings(db: Db, cfg: Config, cfg': Config, s: SpanId)
    requires Settled(db, cfg, s) && cfg.verifier == cfg'.verifier && cfg.hash(s) == cfg'.hash(s)
    ensures Settled(db, cfg', s)
  {
  }

  // ---------------------------------------------------------------- never assessed

  /** One proposition per span, verified on demand; nothing raises. */
  function Smooth(claim: Claim, verdict: Verdict, vectors: Option<Space>): Env {
    Env(vectors, _ => Some([claim]), (_, _) => Some(verdict), _ => false, _ => false, (_, _) => Some(verdict), _ => false,
        _ => false)
  }

  function Embedded(claim: Claim, space: Space): Draft {
    Draft(claim.agreement, claim.unstable, space)
  }

  /** A run over one span that is owed. */
  lemma RunOfOne(db: Db, cfg: Config, env: Env, s: SpanId)
    requires env.vectors.None? || env.vectors == Some(cfg.space)
    requires Owed(db, cfg, s) && RefusalAt(db, cfg, env, s) == Allowed
    ensures Written(db, cfg, env, [s])
         == if Reuse(db, cfg, s).Some? then ReplayedOne(db, db, cfg, env, s) else ExtractedOne(db, db, cfg, env, s)
    ensures Ran(db, cfg, env, [s]) == BackfilledOne(Written(db, cfg, env, [s]), cfg, env, s)
  {
    hide *;
    ChosenOfOne(db, cfg, env, s);
    PassesOfOne(db, db, cfg, env, s);
    PassesOfOne(db, ExtractedOne(db, db, cfg, env, s), cfg, env, s);
    PassesOfOne(db, Written(db, cfg, env, [s]), cfg, env, s);
    WrittenIs(db, cfg, env, [s]);
    GuardPasses(db, cfg, env, [s]);
    RanIs(db, cfg, env, [s]);
  }

  lemma ChosenOfOne(db: Db, cfg: Config, env: Env, s: SpanId)
    ensures Pending(db, cfg, [s]) == (if Owed(db, cfg, s) && Reuse(db, cfg, s).None? then [s] else [])
    ensures ToReplay(db, cfg, [s]) == (if Owed(db, cfg, s) && Reuse(db, cfg, s).Some? then [s] else [])
    ensures RefusingSpan(db, cfg, env, [s]) == RefusalAt(db, cfg, env, s)
  {
    hide Owed, Reuse, RefusalAt;
    var one := [s];
    assert one[..|one| - 1] == [];
  }

  lemma PassesOfOne(start: Db, db: Db, cfg: Config, env: Env, s: SpanId)
    ensures Extracted(db, cfg, env, [s]) == ExtractedOne(db, db, cfg, env, s) && Extracted(db, cfg, env, []) == db
    ensures ReplayedAll(start, db, cfg, env, [s]) == ReplayedOne(start, db, cfg, env, s)
    ensures ReplayedAll(start, db, cfg, env, []) == db
    ensures Backfilled(db, cfg, env, [s]) == BackfilledOne(db, cfg, env, s)
  {
    hide ExtractedOne, ReplayedOne, BackfilledOne;
    var one := [s];
    assert one[..|one| - 1] == [];
  }

  lemma WrittenIs(db: Db, cfg: Config, env: Env, spans: seq<SpanId>)
    ensures Written(db, cfg, env, spans)
         == ReplayedAll(db, Extracted(db, cfg, env, Pending(db, cfg, spans)), cfg, env, ToReplay(db, cfg, spans))
  {
  }

  lemma GuardPasses(db: Db, cfg: Config, env: Env, spans: seq<SpanId>)
    requires env.vectors.None? || env.vectors == Some(cfg.space)
    ensures FirstRefusal(db, cfg, env, spans) == RefusingSpan(db, cfg, env, spans)
  {
  }

  /** With nothing to replay. */
  lemma InferOne(db: Db, cfg: Config, claim: Claim, verdict: Verdict, vectors: Option<Space>, s: SpanId)
    returns (mid: Db)
    requires vectors.None? || vectors == Some(cfg.space)
    requires Owed(db, cfg, s) && (ExtractedHash(db, s).Some? ==> cfg.cascade) && Reuse(db, cfg, s).None?
    ensures var env := Smooth(claim, verdict, vectors);
            && mid == Persisted(db, s, cfg.hash(s), [Embedded(claim, cfg.space)], cfg.verifier,
                                VerdictsFor(cfg, env, s, 1), cfg.quality(s), Superseded(db, cfg, s))
            && Ran(db, cfg, env, [s]) == BackfilledOne(mid, cfg, env, s)
  {
    var env := Smooth(claim, verdict, vectors);
    mid := ExtractedOne(db, db, cfg, env, s);
    assert Inferred(cfg, env, s) == [Embedded(claim, cfg.space)];
    hide Persisted, LastExtract, FindReusable, Reverified, Ran, Written;
    RunOfOne(db, cfg, env, s);
  }

  /** With something to replay. */
  lemma ReplayOne(db: Db, cfg: Config, claim: Claim, verdict: Verdict, vectors: Option<Space>, s: SpanId)
    returns (mid: Db)
    requires vectors.None? || vectors == Some(cfg.space)
    requires Owed(db, cfg, s) && (ExtractedHash(db, s).Some? ==> cfg.cascade) && Reuse(db, cfg, s).Some?
    ensures var env := Smooth(claim, verdict, vectors);
            && mid == Replayed(db, s, cfg.hash(s), Reuse(db, cfg, s).value, cfg.verifier, Superseded(db, cfg, s))
            && Ran(db, cfg, env, [s]) == BackfilledOne(mid, cfg, env, s)
  {
    var env := Smooth(claim, verdict, vectors);
    mid := ReplayedOne(db, db, cfg, env, s);
    hide Replayed, LastExtract, FindReusable, Reverified, Ran, Written;
    RunOfOne(db, cfg, env, s);
  }

  /** The span is taken for verified, and not one of its propositions has a score. */
  ghost predicate NeverAssessed(db: Db, cfg: Config, s: SpanId) {
    && Settled(db, cfg, s) && SpanVerifyIdentity(db, s) == cfg.verifier && cfg.verifier.Some?
    && PropsOf(db, s) != [] && forall i :: 0 <= i < |PropsOf(db, s)| ==> PropsOf(db, s)[i].faithfulness.None?
  }

  /** What is never assessed stays so through every later run with the same settings. */
  lemma NeverAssessedForGood(db: Db, runs: seq<Run>, quality: SpanId -> real, cfg: Config, s: SpanId)
    requires NeverAssessed(db, cfg, s) && Steady(runs, cfg.verifier, s, cfg.hash(s))
    ensures NeverAssessed(RanAll(db, runs, quality), cfg, s)
  {
    hide RanAll, Settled, SpanVerifyIdentity, PropsOf;
    SettledForGood(db, runs, quality, cfg, s);
    SettledFollows(db, RanAll(db, runs, quality), cfg, s);
    UntouchedBacked(db, RanAll(db, runs, quality), s);
  }

  /** One span inferred with one proposition: what a later replay of it would find. */
  lemma InferredIsReusable(db: Db, s: SpanId, hash: Hash, draft: Draft, verifier: Option<Sig>, verdict: Option<Verdict>,
                           quality: real, purge: bool)
    requires (purge || PropsOf(db, s) == []) && (verifier.Some? <==> verdict.Some?)
    ensures var db' := Persisted(db, s, hash, [draft], verifier, [verdict], quality, purge);
            var ps := Minted(db.nextId, [draft], [verdict], quality);
            && |ps| == 1 && (ps[0].faithfulness.Some? <==> verdict.Some?)
            && SourceSig(db'.log, s) == (if verifier.Some? then verifier else SourceSig(db.log, s))
            && FindReusable(db', hash) == Some(Reusable(s, ps, SourceSig(db'.log, s)))
            && (verifier.Some? ==> SpanVerifyIdentity(db', s) == verifier)
            && ExtractedHash(db', s) == Some(hash)
  {
    var ps := Minted(db.nextId, [draft], [verdict], quality);
    assert |ps| == 1 && (ps[0].faithfulness.Some? <==> verdict.Some?);
    assert Ids(ps) == [ps[0].id] && ps == [ps[0]];
    hide *;
    var db' := Persisted(db, s, hash, [draft], verifier, [verdict], quality, purge);
    var extract := Extract(s, hash, Ids(ps), if purge then Ids(PropsOf(db, s)) else [], None, None);
    PersistedIs(db, s, hash, [draft], verifier, [verdict], quality, purge);
    assert PropsOf(db', s) == ps;
    LogAppend(db.log, extract, s);
    HashAppend(db.log, extract, hash);
    if verifier.Some? {
      var verify := VerifyAction(s, verifier.value, ps, [verdict]);
      VerifiedOne(s, verifier.value, ps, verdict);
      LogAppend(db.log + [extract], verify, s);
      HashAppend(db.log + [extract], verify, hash);
      AnswersTo(db', s, verify, verifier.value);
    }
    ReadBackOne(ps[0]);
    Found(db', s, hash, extract, ps);
    SameSource(db.log, db'.log, s);
  }

  lemma VerifiedOne(s: SpanId, who: Sig, ps: seq<Prop>, verdict: Option<Verdict>)
    requires |ps| == 1 && verdict.Some?
    ensures var a := VerifyAction(s, who, ps, [verdict]);
            a.Verify? && a.span == s && a.sig == Some(who) && a.props == Ids(ps)
  {
  }

  lemma AnswersTo(db: Db, s: SpanId, verify: Action, who: Sig)
    requires LastVerify(db.log, s) == Some(verify) && verify.Verify? && verify.sig == Some(who)
    requires verify.props == Ids(PropsOf(db, s)) && PropsOf(db, s) != []
    ensures SpanVerifyIdentity(db, s) == Some(who) && SourceSig(db.log, s) == Some(who)
  {
    assert Ids(PropsOf(db, s))[0] in Ids(PropsOf(db, s));
  }

  lemma Found(db: Db, s: SpanId, hash: Hash, extract: Action, ps: seq<Prop>)
    requires LastWithHash(db.log, hash) == Some(extract) && extract.Extract? && extract.span == s && extract.hash == hash
    requires PropsOf(db, s) == ps && ReadBack(ps, extract.props) == Some(ps) && LastExtract(db.log, s) == Some(extract)
    ensures FindReusable(db, hash) == Some(Reusable(s, ps, SourceSig(db.log, s))) && ExtractedHash(db, s) == Some(hash)
  {
  }

  lemma SameSource(log: seq<Action>, log': seq<Action>, s: SpanId)
    ensures LastVerify(log, s) == LastVerify(log', s) ==> SourceSig(log, s) == SourceSig(log', s)
  {
  }

  lemma HashAppend(log: seq<Action>, a: Action, hash: Hash)
    ensures LastWithHash(log + [a], hash) == if a.Extract? && a.hash == hash then Some(a) else LastWithHash(log, hash)
  {
    assert (log + [a])[..|log|] == log;
  }

  lemma ReadBackOne(p: Prop)
    ensures ReadBack([p], [p.id]) == Some([p])
  {
    var ids := [p.id];
    assert ids[..|ids| - 1] == [] && ids[|ids| - 1] == p.id;
    assert ReadBack([p], []) == Some([]) && WithId([p], p.id) == Some(p);
    assert [] + [p] == [p];
  }

  /** A span replayed from one unscored or untrusted proposition under the verifier's name. */
  lemma ReplayedUnassessed(db: Db, s: SpanId, hash: Hash, r: Reusable, present: Option<Sig>, cfg: Config)
    requires PropsOf(db, s) == [] && LastExtract(db.log, s).None? && LastVerify(db.log, s).None?
    requires |r.props| == 1 && r.sig.Some? && r.sig == cfg.verifier && hash == cfg.hash(s)
    requires r.sig != present || r.props[0].faithfulness.None?
    ensures NeverAssessed(Replayed(db, s, hash, r, present, false), cfg, s)
  {
    var ps, db' := Copies(db.nextId, r, present), Replayed(db, s, hash, r, present, false);
    ReplayedIs(db, s, hash, r, present, false);
    LogAppend(db.log, db'.log[|db.log|], s);
    assert PropsOf(db', s) == ps;
    hide Replayed, LastExtract, LastVerify, PropsOf;
  }

  /** One proposition under this name, unscored if so said. */
  ghost predicate OnlyFinds(r: Reusable, sig: Option<Sig>, unscored: bool) {
    |r.props| == 1 && r.sig == sig && (unscored ==> r.props[0].faithfulness.None?)
  }

  /** The store after a run over one span, owed and with nothing to replay. */
  lemma InferRun(db: Db, cfg: Config, claim: Claim, verdict: Verdict, vectors: Option<Space>, s: SpanId)
    requires vectors.None? || vectors == Some(cfg.space)
    requires Owed(db, cfg, s) && (ExtractedHash(db, s).Some? ==> cfg.cascade) && Reuse(db, cfg, s).None?
    requires ExtractedHash(db, s).Some? || PropsOf(db, s) == []
    ensures var db' := Ran(db, cfg, Smooth(claim, verdict, vectors), [s]);
            && FindReusable(db', cfg.hash(s)).Some?
            && OnlyFinds(FindReusable(db', cfg.hash(s)).value, SourceSig(db'.log, s), cfg.verifier.None?)
            && SourceSig(db'.log, s) == (if cfg.verifier.Some? then cfg.verifier else SourceSig(db.log, s))
            && ExtractedHash(db', s) == Some(cfg.hash(s)) && (forall t :: t != s ==> Untouched(db, db', t))
            && forall h :: h != cfg.hash(s) ==> LastWithHash(db'.log, h) == LastWithHash(db.log, h)
  {
    var draft := Embedded(claim, cfg.space);
    var mid := InferOne(db, cfg, claim, verdict, vectors, s);
    var scored := if cfg.verifier.Some? then Some(verdict) else None;
    assert VerdictsFor(cfg, Smooth(claim, verdict, vectors), s, 1) == [scored];
    var hash, q, purge := cfg.hash(s), cfg.quality(s), Superseded(db, cfg, s);
    InferredIsReusable(db, s, hash, draft, cfg.verifier, scored, q, purge);
    forall t | t != s
      ensures Untouched(db, mid, t)
    {
      PersistTouchesOne(db, s, hash, [draft], cfg.verifier, [scored], q, purge, t);
    }
    forall h | h != hash
      ensures LastWithHash(mid.log, h) == LastWithHash(db.log, h)
    {
      OtherHash(db, s, hash, draft, cfg.verifier, scored, q, purge, h);
    }
    hide Persisted, Ran, FindReusable, SourceSig, SpanVerifyIdentity, Untouched, Superseded, ExtractedHash, Reverified,
      LastWithHash;
    assert BackfilledOne(mid, cfg, Smooth(claim, verdict, vectors), s) == mid;
  }

  lemma OtherHash(db: Db, s: SpanId, hash: Hash, draft: Draft, verifier: Option<Sig>, verdict: Option<Verdict>,
                  quality: real, purge: bool, other: Hash)
    requires hash != other
    ensures LastWithHash(Persisted(db, s, hash, [draft], verifier, [verdict], quality, purge).log, other)
         == LastWithHash(db.log, other)
  {
    var ps := Minted(db.nextId, [draft], [verdict], quality);
    var extract := Extract(s, hash, Ids(ps), if purge then Ids(PropsOf(db, s)) else [], None, None);
    PersistedIs(db, s, hash, [draft], verifier, [verdict], quality, purge);
    HashAppend(db.log, extract, other);
    if verifier.Some? {
      HashAppend(db.log + [extract], VerifyAction(s, verifier.value, ps, [verdict]), other);
    }
    hide Persisted, Minted, LastWithHash;
  }

  /** The store after a run over one blank span with something to replay that loses its score. */
  lemma ReplayRun(db: Db, cfg: Config, later: Config, claim: Claim, verdict: Verdict, vectors: Option<Space>, s: SpanId)
    requires vectors.None? || vectors == Some(cfg.space)
    requires PropsOf(db, s) == [] && LastExtract(db.log, s).None? && LastVerify(db.log, s).None?
    requires Reuse(db, cfg, s).Some? && later.hash(s) == cfg.hash(s)
    requires cfg.verifier.None? || cfg.verifier == later.verifier
    requires var r := Reuse(db, cfg, s).value;
             && |r.props| == 1 && r.sig.Some? && r.sig == later.verifier
             && (r.sig != cfg.verifier || r.props[0].faithfulness.None?)
    ensures NeverAssessed(Ran(db, cfg, Smooth(claim, verdict, vectors), [s]), later, s)
  {
    hide FindReusable, PropsOf, LastVerify;
    var mid := ReplayOne(db, cfg, claim, verdict, vectors, s);
    ReplayedUnassessed(db, s, cfg.hash(s), Reuse(db, cfg, s).value, cfg.verifier, later);
    hide Ran, Replayed, Settled;
    assert BackfilledOne(mid, cfg, Smooth(claim, verdict, vectors), s) == mid;
  }

  /** Nothing was ever written. */
  function Empty(): Db {
    Db([], map[], 0)
  }

  /** A verified span is replayed while no verifier is set: the copies lose their scores and keep
      the name. Once that verifier is back, no run assesses them any more. */
  lemma ReplayWithoutVerifierIsNeverAssessed(a: SpanId, b: SpanId, hash: Hash, who: Sig, claim: Claim, verdict: Verdict,
                                             space: Space, vectors: Option<Space>, quality: SpanId -> real,
                                             later: seq<Run>)
    requires vectors.None? || vectors == Some(space)
    requires a != b && Steady(later, Some(who), b, hash)
    ensures var cfg := Config(Some(who), true, true, space, _ => hash, quality);
            var verified := Ran(Empty(), cfg, Smooth(claim, verdict, None), [a]);
            var replayed := Ran(verified, cfg.(verifier := None), Smooth(claim, verdict, vectors), [b]);
            NeverAssessed(RanAll(replayed, later, quality), cfg, b)
  {
    var cfg := Config(Some(who), true, true, space, _ => hash, quality);
    var verified := Ran(Empty(), cfg, Smooth(claim, verdict, None), [a]);
    var off := cfg.(verifier := None);
    hide Ran, NeverAssessed, FindReusable, SourceSig, Smooth;
    assert FindReusable(Empty(), hash).None? by { NothingReusable(hash); }
    InferRun(Empty(), cfg, claim, verdict, None, a);
    assert Untouched(Empty(), verified, b);
    ReplayRun(verified, off, cfg, claim, verdict, vectors, b);
    NeverAssessedForGood(Ran(verified, off, Smooth(claim, verdict, vectors), [b]), later, quality, cfg, b);
  }

  lemma NothingReusable(hash: Hash)
    ensures FindReusable(Empty(), hash).None?
  {
  }

  /** A verified span is re-extracted while no verifier is set, and its new generation is replayed
      with the verifier back on: the old verification answers for the source, so the unscored
      copies take its name, and no run assesses them any more. */
  lemma ReplayOfAnUnverifiedGenerationIsNeverAssessed(a: SpanId, b: SpanId, first: Hash, hash: Hash, who: Sig,
                                                      claim: Claim, verdict: Verdict, space: Space,
                                                      vectors: Option<Space>, quality: SpanId -> real,
                                                      later: seq<Run>)
    requires vectors.None? || vectors == Some(space)
    requires a != b && first != hash && Steady(later, Some(who), b, hash)
    ensures var cfg := Config(Some(who), true, true, space, _ => hash, quality);
            var verified := Ran(Empty(), cfg.(hash := _ => first), Smooth(claim, verdict, None), [a]);
            var unverified := Ran(verified, cfg.(verifier := None), Smooth(claim, verdict, Some(space)), [a]);
            var replayed := Ran(unverified, cfg, Smooth(claim, verdict, vectors), [b]);
            NeverAssessed(RanAll(replayed, later, quality), cfg, b)
  {
    var cfg := Config(Some(who), true, true, space, _ => hash, quality);
    var early, off := cfg.(hash := _ => first), cfg.(verifier := None);
    var verified := Ran(Empty(), early, Smooth(claim, verdict, None), [a]);
    var unverified := Ran(verified, off, Smooth(claim, verdict, Some(space)), [a]);
    hide Ran, NeverAssessed, SourceSig, Smooth;
    InferRun(Empty(), early, claim, verdict, None, a);
    assert Reuse(verified, off, a).None? && Untouched(Empty(), verified, b);
    hide FindReusable;
    InferRun(verified, off, claim, verdict, Some(space), a);
    assert Untouched(verified, unverified, b);
    ReplayRun(unverified, cfg, cfg, claim, verdict, vectors, b);
    NeverAssessedForGood(Ran(unverified, cfg, Smooth(claim, verdict, vectors), [b]), later, quality, cfg, b);
  }
}
