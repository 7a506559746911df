/**
 What each span of a document holds after a run of src/iknos/core/proposition.py that was not
 refused: its claims if it was inferred, the newest identical extraction's propositions if it was
 replayed, and otherwise what it held. Re-verification moves scores and nothing else.
 */
module SpanContents {
  import opened Sets
  import opened DerivationAdapter
  import opened PropositionLog
  import opened Proposition
  import opened ReplayedIdentity

  // ---------------------------------------------------------------- an inferred span

  /** One proposition per claim, new since `minted`, in the claims' order, embedded under the model. */
  ghost predicate Holds(ps: seq<Prop>, claims: seq<Claim>, minted: nat, space: Space) {
    && |ps| == |claims|
    && forall i :: 0 <= i < |ps| ==>
         && ps[i].id.serial >= minted && ps[i].agreement == claims[i].agreement && ps[i].space == space
         && (PolarityUnstable in ps[i].reasons <==> claims[i].unstable)
  }

  lemma MintedHolds(cfg: Config, env: Env, s: SpanId, nextId: nat, verdicts: seq<Option<Verdict>>, minted: nat)
    requires env.infer(s).Some? && |verdicts| == |Inferred(cfg, env, s)| && minted <= nextId
    ensures Holds(Minted(nextId, Inferred(cfg, env, s), verdicts, cfg.quality(s)), env.infer(s).value, minted, cfg.space)
  {
    hide Faithfulness;
  }

  lemma RescoredHolds(ps: seq<Prop>, verdicts: seq<Option<Verdict>>, quality: real, claims: seq<Claim>, minted: nat,
                      space: Space)
    requires Holds(ps, claims, minted, space) && |verdicts| == |ps|
    ensures Holds(Rescored(ps, verdicts, quality), claims, minted, space)
  {
    hide Faithfulness;
  }

  lemma {:induction false} ExtractedMints(start: Db, cfg: Config, env: Env, pending: seq<SpanId>)
    ensures Extracted(start, cfg, env, pending).nextId >= start.nextId
  {
    hide Minted, Ids, PropsOf, VerifyAction, Superseded;
    if pending != [] {
      ExtractedMints(start, cfg, env, pending[..|pending| - 1]);
    }
  }

  lemma {:induction false} ExtractedHolds(start: Db, cfg: Config, env: Env, pending: seq<SpanId>, s: SpanId)
    requires Distinct(pending) && s in pending && Commits(env, s) && (Superseded(start, cfg, s) || PropsOf(start, s) == [])
    ensures Holds(PropsOf(Extracted(start, cfg, env, pending), s), env.infer(s).value, start.nextId, cfg.space)
  {
    hide Distinct, Persisted, Superseded, PropsOf, Holds, Minted;
    var front, t := pending[..|pending| - 1], pending[|pending| - 1];
    assert pending == front + [t];
    DistinctFront(front, t);
    var db := Extracted(start, cfg, env, front);
    if s == t {
      ExtractedTouchesPending(start, cfg, env, front, s);
      ExtractedMints(start, cfg, env, front);
      var ds := Inferred(cfg, env, s);
      var vs := VerdictsFor(cfg, env, s, |ds|);
      PersistedIs(db, s, cfg.hash(s), ds, cfg.verifier, vs, cfg.quality(s), Superseded(start, cfg, s));
      MintedHolds(cfg, env, s, db.nextId, vs, start.nextId);
      assert [] + Minted(db.nextId, ds, vs, cfg.quality(s)) == Minted(db.nextId, ds, vs, cfg.quality(s));
    } else {
      ExtractedHolds(start, cfg, env, front, s);
      if Commits(env, t) {
        var ds := Inferred(cfg, env, t);
        PersistedIs(db, t, cfg.hash(t), ds, cfg.verifier, VerdictsFor(cfg, env, t, |ds|), cfg.quality(t),
                    Superseded(start, cfg, t));
      }
    }
  }

  lemma {:induction false} BackfilledHolds(db: Db, cfg: Config, env: Env, spans: seq<SpanId>, s: SpanId,
                                           claims: seq<Claim>, minted: nat)
    requires Holds(PropsOf(db, s), claims, minted, cfg.space)
    ensures Holds(PropsOf(Backfilled(db, cfg, env, spans), s), claims, minted, cfg.space)
  {
    hide SpanVerifyIdentity, Holds, Rescored, VerifyAction;
    if spans != [] {
      var front, t := spans[..|spans| - 1], spans[|spans| - 1];
      BackfilledHolds(db, cfg, env, front, s, claims, minted);
      var mid := Backfilled(db, cfg, env, front);
      if s == t {
        RescoredHolds(PropsOf(mid, s), Reverdicts(env, s, |PropsOf(mid, s)|), cfg.quality(s), claims, minted, cfg.space);
      }
    }
  }

  /** What inference comes to: after a run that is not refused, an owed span with no identical
      extraction to replay, whose call and write went through, holds exactly its claims. */
  lemma InferredSpanHolds(db: Db, cfg: Config, env: Env, spans: seq<SpanId>, s: SpanId)
    requires Sound(db, cfg.quality) && Distinct(spans) && s in spans
    requires FirstRefusal(db, cfg, env, spans) == Allowed
    requires Owed(db, cfg, s) && Reuse(db, cfg, s).None? && Commits(env, s)
    ensures Holds(PropsOf(Ran(db, cfg, env, spans), s), env.infer(s).value, db.nextId, cfg.space)
  {
    assert SpanSound(db, s, cfg.quality(s));
    NeverExtractedIsEmpty(db, s, cfg.quality(s));
    PendingIs(db, cfg, spans);
    assert Superseded(db, cfg, s) || PropsOf(db, s) == [];
    hide *;
    var pending := Pending(db, cfg, spans);
    ExtractedHolds(db, cfg, env, pending, s);
    ReplayedTouches(db, Extracted(db, cfg, env, pending), cfg, env, ToReplay(db, cfg, spans), s);
    UntouchedProps(Extracted(db, cfg, env, pending), Written(db, cfg, env, spans), s);
    BackfilledHolds(Written(db, cfg, env, spans), cfg, env, spans, s, env.infer(s).value, db.nextId);
  }

  lemma UntouchedProps(db: Db, db': Db, s: SpanId)
    requires Untouched(db, db', s)
    ensures PropsOf(db', s) == PropsOf(db, s)
  {
  }

  // ---------------------------------------------------------------- a replayed span

  /** The reasons that are not about the score. */
  ghost function Standing(p: Prop): set<Reason> {
    p.reasons - {LowFaithfulness, UnassessedFaithfulness}
  }

  /** The same propositions but for ids and scores. */
  ghost predicate Mirrors(ps: seq<Prop>, qs: seq<Prop>) {
    && |ps| == |qs|
    && forall i :: 0 <= i < |ps| ==>
         ps[i].agreement == qs[i].agreement && ps[i].space == qs[i].space && Standing(ps[i]) == Standing(qs[i])
  }

  ghost predicate SameScores(ps: seq<Prop>, qs: seq<Prop>)
    requires |ps| == |qs|
  {
    forall i :: 0 <= i < |ps| ==> ps[i].faithfulness == qs[i].faithfulness
  }

  lemma RescoredMirrors(ps: seq<Prop>, verdicts: seq<Option<Verdict>>, quality: real)
    requires |verdicts| == |ps|
    ensures Mirrors(Rescored(ps, verdicts, quality), ps) && Ids(Rescored(ps, verdicts, quality)) == Ids(ps)
  {
    hide Faithfulness;
  }

  lemma CopiesMirror(nextId: nat, r: Reusable, present: Option<Sig>)
    ensures var ps := Copies(nextId, r, present);
            && Mirrors(ps, r.props)
            && (forall i :: 0 <= i < |ps| ==> ps[i].id.serial >= nextId)
            && (r.sig == present ==> SameScores(ps, r.props))
            && (r.sig != present ==> forall i :: 0 <= i < |ps| ==> ps[i].faithfulness.None?)
  {
  }

  /** The last log entry that extracted under this hash, whichever span it was for. */
  ghost predicate NewestUnder(log: seq<Action>, hash: Hash, i: nat) {
    && i < |log| && log[i].Extract? && log[i].hash == hash
    && forall j :: i < j < |log| && log[j].Extract? ==> log[j].hash != hash
  }

  lemma {:induction false} NewestIsFound(log: seq<Action>, hash: Hash, i: nat)
    requires NewestUnder(log, hash, i)
    ensures LastWithHash(log, hash) == Some(log[i])
  {
    if i < |log| - 1 {
      NewestIsFound(log[..|log| - 1], hash, i);
    }
  }

  lemma {:induction false} NoneIsFound(log: seq<Action>, hash: Hash)
    requires forall i :: 0 <= i < |log| && log[i].Extract? ==> log[i].hash != hash
    ensures LastWithHash(log, hash) == None
  {
    if log != [] {
      NoneIsFound(log[..|log| - 1], hash);
    }
  }

  /** One of the propositions has this id. */
  ghost predicate Has(ps: seq<Prop>, id: PropId) {
    exists j :: 0 <= j < |ps| && ps[j].id == id
  }

  /** `p` is one of the propositions, and has this id. */
  ghost predicate IsThe(p: Prop, ps: seq<Prop>, id: PropId) {
    p.id == id && exists j :: 0 <= j < |ps| && ps[j] == p
  }

  lemma {:induction false} WithIdFinds(ps: seq<Prop>, id: PropId)
    ensures WithId(ps, id).Some? <==> Has(ps, id)
    ensures WithId(ps, id).Some? ==> IsThe(WithId(ps, id).value, ps, id)
  {
    if ps != [] {
      var n := |ps| - 1;
      WithIdFinds(ps[..n], id);
      assert forall j :: 0 <= j < n ==> ps[..n][j] == ps[j];
    }
  }

  /** Reading back finds every listed proposition or nothing. */
  lemma {:induction false} ReadBackExactly(ps: seq<Prop>, ids: seq<PropId>)
    ensures ReadBack(ps, ids).Some? <==> forall k :: 0 <= k < |ids| ==> Has(ps, ids[k])
    ensures ReadBack(ps, ids).Some? ==>
              |ReadBack(ps, ids).value| == |ids|
              && forall k :: 0 <= k < |ids| ==> IsThe(ReadBack(ps, ids).value[k], ps, ids[k])
  {
    hide WithId, Has, IsThe;
    if ids != [] {
      var n := |ids| - 1;
      ReadBackExactly(ps, ids[..n]);
      WithIdFinds(ps, ids[n]);
      assert forall k :: 0 <= k < n ==> ids[..n][k] == ids[k];
      assert ReadBack(ps, ids).Some? <==> ReadBack(ps, ids[..n]).Some? && WithId(ps, ids[n]).Some?;
    }
  }

  /** What is replayed for a span: with reuse on, the newest extraction under its hash, provided its
      source still holds every proposition that one listed. */
  lemma ReuseExactly(db: Db, cfg: Config, s: SpanId, i: nat)
    requires NewestUnder(db.log, cfg.hash(s), i)
    ensures var a := db.log[i];
            var held := PropsOf(db, a.span);
            && (Reuse(db, cfg, s).Some? <==> cfg.reuse && forall k :: 0 <= k < |a.props| ==> Has(held, a.props[k]))
            && (Reuse(db, cfg, s).Some? ==>
                  var r := Reuse(db, cfg, s).value;
                  r.source == a.span && |r.props| == |a.props|
                  && forall k :: 0 <= k < |r.props| ==>
                       r.props[k].space == cfg.space
                       && exists p :: IsThe(p, held, a.props[k]) && r.props[k] == p.(space := cfg.space))
  {
    NewestIsFound(db.log, cfg.hash(s), i);
    ReadBackExactly(PropsOf(db, db.log[i].span), db.log[i].props);
    hide LastWithHash, ReadBack, Has, IsThe, PropsOf;
    if Reuse(db, cfg, s).Some? {
      var r, found := Reuse(db, cfg, s).value, ReadBack(PropsOf(db, db.log[i].span), db.log[i].props).value;
      forall k | 0 <= k < |r.props|
        ensures r.props[k].space == cfg.space
        ensures exists p :: IsThe(p, PropsOf(db, db.log[i].span), db.log[i].props[k]) && r.props[k] == p.(space := cfg.space)
      {
        assert IsThe(found[k], PropsOf(db, db.log[i].span), db.log[i].props[k]);
      }
    }
  }

  /** A hash no extraction ran under is not replayed. */
  lemma NothingToReuse(db: Db, cfg: Config, s: SpanId)
    requires forall i :: 0 <= i < |db.log| && db.log[i].Extract? ==> db.log[i].hash != cfg.hash(s)
    ensures Reuse(db, cfg, s) == None
  {
    NoneIsFound(db.log, cfg.hash(s));
  }

  /** The verification pass moves scores and nothing else, and leaves alone a span that answers with
      the present verifier or runs without one. */
  lemma PassMirrors(db: Db, cfg: Config, env: Env, s: SpanId)
    ensures var ps, ps' := PropsOf(db, s), PropsOf(BackfilledOne(db, cfg, env, s), s);
            Mirrors(ps', ps) && Ids(ps') == Ids(ps)
    ensures cfg.verifier.None? || SpanVerifyIdentity(db, s) == cfg.verifier ==> BackfilledOne(db, cfg, env, s) == db
  {
    RescoredMirrors(PropsOf(db, s), Reverdicts(env, s, |PropsOf(db, s)|), cfg.quality(s));
    hide Rescored, SpanVerifyIdentity, Ids;
  }

  /** A replayed span, before the pass: mirrors of what was found, under the stamp of its source. */
  lemma ReplayedIsStamped(db: Db, cfg: Config, s: SpanId, r: Reusable, purge: bool)
    requires SpanSound(db, s, cfg.quality(s)) && (purge || LastExtract(db.log, s).None?)
    ensures var db' := Replayed(db, s, cfg.hash(s), r, cfg.verifier, purge);
            PropsOf(db', s) == Copies(db.nextId, r, cfg.verifier) && SpanVerifyIdentity(db', s) == r.sig
  {
    var db' := Replayed(db, s, cfg.hash(s), r, cfg.verifier, purge);
    var ps := Copies(db.nextId, r, cfg.verifier);
    ReplayedIs(db, s, cfg.hash(s), r, cfg.verifier, purge);
    LogAppend(db.log, db'.log[|db.log|], s);
    if LastVerify(db.log, s).Some? {
      CopiesAreNew(LastVerify(db.log, s).value.props, db.nextId, r, cfg.verifier);
    }
    assert PropsOf(db', s) == ps by {
      if !purge {
        assert PropsOf(db, s) == [];
      }
    }
    hide Copies, Replayed, Intersects, Vouches, FlaggedRight;
  }

  /** What a replay comes to: the span mirrors what was found. It keeps the scores if the source's
      verifier is the present one; otherwise, with no verifier to score it anew, it has none. */
  lemma ReplayedSpanHolds(db: Db, cfg: Config, env: Env, spans: seq<SpanId>, s: SpanId)
    requires Sound(db, cfg.quality) && Distinct(spans) && s in spans && FirstRefusal(db, cfg, env, spans) == Allowed
    requires Owed(db, cfg, s) && Reuse(db, cfg, s).Some? && ReplayCommits(env, s)
    ensures var ps, r := PropsOf(Ran(db, cfg, env, spans), s), Reuse(db, cfg, s).value;
            && Mirrors(ps, r.props)
            && (r.sig == cfg.verifier ==> SameScores(ps, r.props))
            && (r.sig != cfg.verifier && cfg.verifier.None? ==> forall i :: 0 <= i < |ps| ==> ps[i].faithfulness.None?)
  {
    hide *;
    var r, purge, end := Reuse(db, cfg, s).value, Superseded(db, cfg, s), Written(db, cfg, env, spans);
    var pending, toReplay := Pending(db, cfg, spans), ToReplay(db, cfg, spans);
    var mid := Extracted(db, cfg, env, pending);
    PendingIs(db, cfg, spans);
    InferenceLeavesReplaysAlone(db, cfg, env, spans);
    ExtractedKeepsSound(db, cfg, env, pending);
    var before := ReplayedAt(db, mid, cfg, env, toReplay, s);
    UntouchedTransitive(db, mid, before, s);
    NotSuperseded(db, before, cfg, s);
    SoundAt(before, cfg.quality, s);
    ReplayedIsStamped(before, cfg, s, r, purge);
    CopiesMirror(before.nextId, r, cfg.verifier);
    WrittenIs(db, cfg, env, spans);
    var replayed := Replayed(before, s, cfg.hash(s), r, cfg.verifier, purge);
    UntouchedBacked(replayed, end, s);
    UntouchedProps(replayed, end, s);
    PassMirrors(end, cfg, env, s);
    BackfilledAt(end, cfg, env, spans, s);
    UntouchedProps(BackfilledOne(end, cfg, env, s), Backfilled(end, cfg, env, spans), s);
    RanIs(db, cfg, env, spans);
    MirrorsTransitive(PropsOf(Ran(db, cfg, env, spans), s), PropsOf(end, s), r.props);
  }

  lemma WrittenIs(db: Db, cfg: Config, env: Env, spans: seq<SpanId>)
    ensures Written(db, cfg, env, spans)
         == ReplayedAll(db, Extracted(db, cfg, env, Pending(db, cfg, spans)), cfg, env, ToReplay(db, cfg, spans))
  {
  }

  lemma MirrorsTransitive(a: seq<Prop>, b: seq<Prop>, c: seq<Prop>)
    requires Mirrors(a, b) && Mirrors(b, c)
    ensures Mirrors(a, c)
  {
  }

  // ---------------------------------------------------------------- any other span

  /** A span that is not owed, or whose attempt failed, keeps its propositions; only scores move. */
  lemma OtherSpanKeeps(db: Db, cfg: Config, env: Env, spans: seq<SpanId>, s: SpanId)
    requires Distinct(spans) && s in spans && FirstRefusal(db, cfg, env, spans) == Allowed
    requires !Owed(db, cfg, s) || !Lands(db, cfg, env, s)
    ensures var ps, ps' := PropsOf(db, s), PropsOf(Ran(db, cfg, env, spans), s);
            && Mirrors(ps', ps) && Ids(ps') == Ids(ps)
            && (cfg.verifier.None? || SpanVerifyIdentity(db, s) == cfg.verifier ==> ps' == ps)
  {
    hide *;
    var end := Written(db, cfg, env, spans);
    WrittenTouches(db, cfg, env, spans, s);
    UntouchedProps(db, end, s);
    UntouchedBacked(db, end, s);
    PassMirrors(end, cfg, env, s);
    BackfilledAt(end, cfg, env, spans, s);
    UntouchedProps(BackfilledOne(end, cfg, env, s), Backfilled(end, cfg, env, spans), s);
    RanIs(db, cfg, env, spans);
  }

  // ---------------------------------------------------------------- what the run reports and records

  /** The report names as failed exactly the spans of the document that were owed and did not go through. */
  lemma FailedExactlyWhen(db: Db, cfg: Config, env: Env, spans: seq<SpanId>, s: SpanId)
    requires Distinct(spans)
    ensures Fails(db, cfg, env, spans, s) <==> s in spans && Owed(db, cfg, s) && !Lands(db, cfg, env, s)
  {
    PendingIs(db, cfg, spans);
    hide Owed, Reuse, Commits, ReplayCommits, Pending, ToReplay, Distinct;
  }

  /** ... and as re-verified exactly those that held a proposition under another identity than the
      present verifier's when the pass began, and whose update did not raise. */
  lemma {:induction false} BackfilledExactlyWhen(db: Db, cfg: Config, env: Env, spans: seq<SpanId>, s: SpanId)
    requires Distinct(spans)
    ensures s in BackfilledSpans(db, cfg, env, spans)
       <==> s in spans && cfg.verifier.Some? && SpanVerifyIdentity(db, s) != cfg.verifier && PropsOf(db, s) != []
            && !env.backfillRaises(s)
  {
    hide Distinct, SpanVerifyIdentity, PropsOf, Backfilled, Untouched;
    if spans != [] {
      var front, last := spans[..|spans| - 1], spans[|spans| - 1];
      assert spans == front + [last];
      DistinctFront(front, last);
      BackfilledExactlyWhen(db, cfg, env, front, s);
      if s == last {
        BackfilledTouchesSpans(db, cfg, env, front, s);
        UntouchedBacked(db, Backfilled(db, cfg, env, front), s);
        UntouchedProps(db, Backfilled(db, cfg, env, front), s);
      }
    }
  }

  /** The span's newest extraction ran under this hash and names the generation it replaced. */
  ghost predicate Replaces(db: Db, s: SpanId, hash: Hash, was: seq<PropId>) {
    var e := LastExtract(db.log, s);
    e.Some? && e.value.Extract? && e.value.hash == hash && e.value.superseded == was
  }

  lemma {:induction false} ExtractedReplaces(start: Db, cfg: Config, env: Env, pending: seq<SpanId>, s: SpanId)
    requires Distinct(pending) && s in pending && Commits(env, s) && (Superseded(start, cfg, s) || PropsOf(start, s) == [])
    ensures Replaces(Extracted(start, cfg, env, pending), s, cfg.hash(s), Ids(PropsOf(start, s)))
  {
    hide *;
    var front, t := pending[..|pending| - 1], pending[|pending| - 1];
    assert pending == front + [t];
    DistinctFront(front, t);
    var db := Extracted(start, cfg, env, front);
    ExtractedIs(start, cfg, env, pending);
    if s == t {
      ExtractedTouchesPending(start, cfg, env, front, s);
      UntouchedProps(start, db, s);
      OneReplaces(start, db, cfg, env, s);
    } else {
      ExtractedReplaces(start, cfg, env, front, s);
      OthersReplace(start, db, cfg, env, t, s, Ids(PropsOf(start, s)));
    }
  }

  lemma ExtractedIs(start: Db, cfg: Config, env: Env, pending: seq<SpanId>)
    requires pending != []
    ensures Extracted(start, cfg, env, pending)
         == ExtractedOne(start, Extracted(start, cfg, env, pending[..|pending| - 1]), cfg, env, pending[|pending| - 1])
  {
  }

  lemma OneReplaces(start: Db, db: Db, cfg: Config, env: Env, s: SpanId)
    requires Commits(env, s) && PropsOf(db, s) == PropsOf(start, s)
    requires Superseded(start, cfg, s) || PropsOf(start, s) == []
    ensures Replaces(ExtractedOne(start, db, cfg, env, s), s, cfg.hash(s), Ids(PropsOf(start, s)))
  {
    var ds := Inferred(cfg, env, s);
    var vs := VerdictsFor(cfg, env, s, |ds|);
    var purge := Superseded(start, cfg, s);
    PersistedIs(db, s, cfg.hash(s), ds, cfg.verifier, vs, cfg.quality(s), purge);
    var ps := Minted(db.nextId, ds, vs, cfg.quality(s));
    hide Persisted, Minted, LastExtract, PropsOf, Superseded, VerdictsFor, VerifyAction;
    var extract := Extract(s, cfg.hash(s), Ids(ps), if purge then Ids(PropsOf(db, s)) else [], None, None);
    LogAppend(db.log, extract, s);
    if cfg.verifier.Some? && ds != [] {
      LogAppend(db.log + [extract], VerifyAction(s, cfg.verifier.value, ps, vs), s);
      VerifyIsNoExtract(s, cfg.verifier.value, ps, vs);
    }
    assert !purge ==> Ids(PropsOf(start, s)) == [];
  }

  lemma VerifyIsNoExtract(s: SpanId, who: Sig, ps: seq<Prop>, verdicts: seq<Option<Verdict>>)
    requires |verdicts| == |ps|
    ensures VerifyAction(s, who, ps, verdicts).Verify?
  {
  }

  lemma OthersReplace(start: Db, db: Db, cfg: Config, env: Env, t: SpanId, s: SpanId, was: seq<PropId>)
    requires s != t && Replaces(db, s, cfg.hash(s), was)
    ensures Replaces(ExtractedOne(start, db, cfg, env, t), s, cfg.hash(s), was)
  {
    if Commits(env, t) {
      var ds := Inferred(cfg, env, t);
      PersistTouchesOne(db, t, cfg.hash(t), ds, cfg.verifier, VerdictsFor(cfg, env, t, |ds|), cfg.quality(t),
                        Superseded(start, cfg, t), s);
      hide Persisted, LastExtract;
      UntouchedReplaces(db, ExtractedOne(start, db, cfg, env, t), s, cfg.hash(s), was);
    }
  }

  lemma UntouchedReplaces(db: Db, db': Db, s: SpanId, hash: Hash, was: seq<PropId>)
    requires Untouched(db, db', s) && Replaces(db, s, hash, was)
    ensures Replaces(db', s, hash, was)
  {
  }

  lemma ReplayReplaces(db: Db, cfg: Config, s: SpanId, r: Reusable, purge: bool)
    requires purge || PropsOf(db, s) == []
    ensures Replaces(Replayed(db, s, cfg.hash(s), r, cfg.verifier, purge), s, cfg.hash(s), Ids(PropsOf(db, s)))
  {
    ReplayedIs(db, s, cfg.hash(s), r, cfg.verifier, purge);
    LogAppend(db.log, Replayed(db, s, cfg.hash(s), r, cfg.verifier, purge).log[|db.log|], s);
    hide Replayed, LastExtract, Copies, PropsOf;
    assert !purge ==> Ids(PropsOf(db, s)) == [];
  }

  /** The audit trail: after an owed span went through, its newest extraction names exactly the
      propositions it held before as superseded, and exactly those it holds now as its own. */
  lemma SupersededAreNamed(db: Db, cfg: Config, env: Env, spans: seq<SpanId>, s: SpanId)
    requires Sound(db, cfg.quality) && Distinct(spans) && s in spans && FirstRefusal(db, cfg, env, spans) == Allowed
    requires Owed(db, cfg, s) && Lands(db, cfg, env, s)
    ensures var e := LastExtract(Ran(db, cfg, env, spans).log, s);
            && e.Some? && e.value.Extract? && e.value.hash == cfg.hash(s)
            && e.value.superseded == Ids(PropsOf(db, s)) && e.value.props == Ids(PropsOf(Ran(db, cfg, env, spans), s))
  {
    hide *;
    var pending, toReplay, end := Pending(db, cfg, spans), ToReplay(db, cfg, spans), Written(db, cfg, env, spans);
    var mid := Extracted(db, cfg, env, pending);
    PendingIs(db, cfg, spans);
    WrittenIs(db, cfg, env, spans);
    SoundAt(db, cfg.quality, s);
    PurgeOrEmpty(db, cfg, s);
    LandsMeans(db, cfg, env, s);
    if Reuse(db, cfg, s).None? {
      ExtractedReplaces(db, cfg, env, pending, s);
      ReplayedTouches(db, mid, cfg, env, toReplay, s);
      UntouchedReplaces(mid, end, s, cfg.hash(s), Ids(PropsOf(db, s)));
    } else {
      InferenceLeavesReplaysAlone(db, cfg, env, spans);
      ExtractedKeepsSound(db, cfg, env, pending);
      var before := ReplayedAt(db, mid, cfg, env, toReplay, s);
      var r, purge := Reuse(db, cfg, s).value, Superseded(db, cfg, s);
      UntouchedTransitive(db, mid, before, s);
      UntouchedProps(db, before, s);
      ReplayReplaces(before, cfg, s, r, purge);
      UntouchedReplaces(Replayed(before, s, cfg.hash(s), r, cfg.verifier, purge), end, s, cfg.hash(s), Ids(PropsOf(db, s)));
    }
    RanIs(db, cfg, env, spans);
    BackfillKeepsExtracts(end, cfg, env, spans, s);
    RunKeepsSound(db, cfg, env, spans);
    SoundAt(Ran(db, cfg, env, spans), cfg.quality, s);
    ReplacedAndListed(end, Ran(db, cfg, env, spans), s, cfg.hash(s), Ids(PropsOf(db, s)), cfg.quality(s));
  }

  lemma PurgeOrEmpty(db: Db, cfg: Config, s: SpanId)
    requires SpanSound(db, s, cfg.quality(s)) && Owed(db, cfg, s)
    ensures Superseded(db, cfg, s) || PropsOf(db, s) == []
  {
    NeverExtractedIsEmpty(db, s, cfg.quality(s));
    hide SpanSound, ExtractedHash, PropsOf;
  }

  lemma LandsMeans(db: Db, cfg: Config, env: Env, s: SpanId)
    ensures Lands(db, cfg, env, s)
       <==> if Reuse(db, cfg, s).Some? then ReplayCommits(env, s) else Commits(env, s)
  {
  }

  lemma ReplacedAndListed(db: Db, db': Db, s: SpanId, hash: Hash, was: seq<PropId>, quality: real)
    requires Replaces(db, s, hash, was) && LastExtract(db'.log, s) == LastExtract(db.log, s) && SpanSound(db', s, quality)
    ensures var e := LastExtract(db'.log, s);
            && e.Some? && e.value.Extract? && e.value.hash == hash
            && e.value.superseded == was && e.value.props == Ids(PropsOf(db', s))
  {
    hide LastExtract, PropsOf;
  }
}
