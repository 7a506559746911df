/**
 The propositionize pipeline of src/iknos/core/proposition.py over the store of
 PropositionLog.dfy: spans whose content hash moved are re-extracted or replayed from an identical
 extraction, spans whose verifier moved are re-verified in place, and a span that fails is rolled
 back alone.

 Model calls and database failures are an `Env` of arbitrary outcomes. The theorems are that
 every run keeps the store sound (`RunKeepsSound`), touches no other span, leaves a failed span
 to be retried, and writes nothing when repeated after a clean run. ReplayedIdentity.dfy says when
 a run leaves a span answering with an identity its scores do not back.
 */
module Proposition {
  import opened Sets
  import opened DerivationAdapter
  import opened PropositionLog

  /** The pipeline's settings. Hash and parse quality are functions of the document. */
  datatype Config = Config(verifier: Option<Sig>, cascade: bool, reuse: bool, space: Space, hash: SpanId -> Hash,
                           quality: SpanId -> real)

  /** What inference proposes for one proposition. */
  datatype Claim = Claim(agreement: Option<real>, unstable: bool)

  /** What the outside answers during one run. No claims or no verdict is a call that raised;
      `vectors` is the model of whatever vector of the document the guard's query meets. */
  datatype Env = Env(vectors: Option<Space>, infer: SpanId -> Option<seq<Claim>>,
                     verdict: (SpanId, nat) -> Option<Verdict>, replayRaises: SpanId -> bool,
                     persistRaises: SpanId -> bool, reverdict: (SpanId, nat) -> Option<Verdict>,
                     backfillRaises: SpanId -> bool, dependents: SpanId -> bool)

  datatype Refusal =
    | Allowed
    | EmbeddingModelMismatch(stored: Space)
    | StaleExtraction(span: SpanId)
    | CascadeDependents(span: SpanId)

  datatype Outcome = Refused(why: Refusal) | Report(failed: seq<SpanId>, backfilled: seq<SpanId>)

  // ---------------------------------------------------------------- one run, as a function

  predicate Owed(db: Db, cfg: Config, s: SpanId) {
    ExtractedHash(db, s) != Some(cfg.hash(s))
  }

  predicate Superseded(db: Db, cfg: Config, s: SpanId) {
    ExtractedHash(db, s).Some? && Owed(db, cfg, s)
  }

  function RefusalAt(db: Db, cfg: Config, env: Env, s: SpanId): Refusal {
    if !Superseded(db, cfg, s) then Allowed
    else if !cfg.cascade then StaleExtraction(s)
    else if env.dependents(s) then CascadeDependents(s)
    else Allowed
  }

  /** The first span met that refuses the run. */
  function RefusingSpan(db: Db, cfg: Config, env: Env, spans: seq<SpanId>): Refusal {
    if spans == [] then Allowed
    else
      var before := RefusingSpan(db, cfg, env, spans[..|spans| - 1]);
      if before.Allowed? then RefusalAt(db, cfg, env, spans[|spans| - 1]) else before
  }

  /** The first refusal met: the document's vectors are of another model, or one of its spans. */
  function FirstRefusal(db: Db, cfg: Config, env: Env, spans: seq<SpanId>): Refusal {
    if env.vectors.Some? && env.vectors.value != cfg.space then EmbeddingModelMismatch(env.vectors.value)
    else RefusingSpan(db, cfg, env, spans)
  }

  /** A cached extraction with its vectors computed anew. */
  function Reembedded(r: Reusable, space: Space): Reusable {
    Reusable(r.source, seq(|r.props|, i requires 0 <= i < |r.props| => r.props[i].(space := space)), r.sig)
  }

  /** The identical extraction to replay, if reuse is on and there is one. */
  function Reuse(db: Db, cfg: Config, s: SpanId): Option<Reusable> {
    if !cfg.reuse then None
    else
      match FindReusable(db, cfg.hash(s))
      case None => None
      case Some(r) => Some(Reembedded(r, cfg.space))
  }

  /** The spans to infer. */
  function Pending(db: Db, cfg: Config, spans: seq<SpanId>): seq<SpanId> {
    if spans == [] then []
    else
      var front, s := spans[..|spans| - 1], spans[|spans| - 1];
      Pending(db, cfg, front) + if Owed(db, cfg, s) && Reuse(db, cfg, s).None? then [s] else []
  }

  /** The spans to replay. */
  function ToReplay(db: Db, cfg: Config, spans: seq<SpanId>): seq<SpanId> {
    if spans == [] then []
    else
      var front, s := spans[..|spans| - 1], spans[|spans| - 1];
      ToReplay(db, cfg, front) + if Owed(db, cfg, s) && Reuse(db, cfg, s).Some? then [s] else []
  }

  function VerdictsFor(cfg: Config, env: Env, s: SpanId, n: nat): (vs: seq<Option<Verdict>>)
    ensures |vs| == n
  {
    seq(n, i requires 0 <= i < n => if cfg.verifier.Some? then env.verdict(s, i) else None)
  }

  /** What was inferred for the span, embedded under the run's model. */
  function Inferred(cfg: Config, env: Env, s: SpanId): (drafts: seq<Draft>)
    requires env.infer(s).Some?
    ensures |drafts| == |env.infer(s).value|
  {
    var claims := env.infer(s).value;
    seq(|claims|, i requires 0 <= i < |claims| => Draft(claims[i].agreement, claims[i].unstable, cfg.space))
  }

  predicate Commits(env: Env, s: SpanId) {
    env.infer(s).Some? && !env.persistRaises(s)
  }

  /** What the run attempts on an owed span goes through. */
  predicate Lands(db: Db, cfg: Config, env: Env, s: SpanId) {
    if Reuse(db, cfg, s).Some? then ReplayCommits(env, s) else Commits(env, s)
  }

  function ExtractedOne(start: Db, db: Db, cfg: Config, env: Env, s: SpanId): Db {
    if Commits(env, s) then
      var drafts := Inferred(cfg, env, s);
      Persisted(db, s, cfg.hash(s), drafts, cfg.verifier, VerdictsFor(cfg, env, s, |drafts|), cfg.quality(s),
                Superseded(start, cfg, s))
    else db
  }

  /** The extraction transactions of the pending spans, in order. */
  function Extracted(start: Db, cfg: Config, env: Env, pending: seq<SpanId>): Db {
    if pending == [] then start
    else ExtractedOne(start, Extracted(start, cfg, env, pending[..|pending| - 1]), cfg, env, pending[|pending| - 1])
  }

  predicate ReplayCommits(env: Env, s: SpanId) {
    !env.replayRaises(s) && !env.persistRaises(s)
  }

  function ReplayedOne(start: Db, db: Db, cfg: Config, env: Env, s: SpanId): Db {
    var r := Reuse(start, cfg, s);
    if r.Some? && ReplayCommits(env, s) then
      Replayed(db, s, cfg.hash(s), r.value, cfg.verifier, Superseded(start, cfg, s))
    else db
  }

  /** The replay transactions, in order, of what was found when the run began. */
  function ReplayedAll(start: Db, db: Db, cfg: Config, env: Env, toReplay: seq<SpanId>): Db {
    if toReplay == [] then db
    else
      ReplayedOne(start, ReplayedAll(start, db, cfg, env, toReplay[..|toReplay| - 1]), cfg, env,
                  toReplay[|toReplay| - 1])
  }

  /** The store once every owed span was inferred or replayed. */
  function Written(db: Db, cfg: Config, env: Env, spans: seq<SpanId>): Db {
    ReplayedAll(db, Extracted(db, cfg, env, Pending(db, cfg, spans)), cfg, env, ToReplay(db, cfg, spans))
  }

  function Reverdicts(env: Env, s: SpanId, n: nat): (vs: seq<Option<Verdict>>)
    ensures |vs| == n
  {
    seq(n, i requires 0 <= i < n => env.reverdict(s, i))
  }

  function BackfilledOne(db: Db, cfg: Config, env: Env, s: SpanId): Db {
    if cfg.verifier.Some? && SpanVerifyIdentity(db, s) != cfg.verifier && !env.backfillRaises(s) then
      Reverified(db, s, cfg.verifier.value, Reverdicts(env, s, |PropsOf(db, s)|), cfg.quality(s))
    else db
  }

  /** The verification pass over all spans, in order. */
  function Backfilled(db: Db, cfg: Config, env: Env, spans: seq<SpanId>): Db {
    if spans == [] then db
    else BackfilledOne(Backfilled(db, cfg, env, spans[..|spans| - 1]), cfg, env, spans[|spans| - 1])
  }

  /** The spans that pass re-verifies: in order, those whose identity is stale by then, that hold a
      proposition, and whose update does not raise. */
  function BackfilledSpans(db: Db, cfg: Config, env: Env, spans: seq<SpanId>): seq<SpanId> {
    if spans == [] then []
    else
      var front, s := spans[..|spans| - 1], spans[|spans| - 1];
      var mid := Backfilled(db, cfg, env, front);
      BackfilledSpans(db, cfg, env, front) +
      if cfg.verifier.Some? && SpanVerifyIdentity(mid, s) != cfg.verifier && !env.backfillRaises(s)
         && PropsOf(mid, s) != []
      then [s] else []
  }

  function Ran(db: Db, cfg: Config, env: Env, spans: seq<SpanId>): Db {
    if FirstRefusal(db, cfg, env, spans) != Allowed then db
    else Backfilled(Written(db, cfg, env, spans), cfg, env, spans)
  }

  // ---------------------------------------------------------------- the pipeline

  class SpanStore {
    var log: seq<Action>
    var props: map<SpanId, seq<Prop>>
    var nextId: nat

    function View(): Db
      reads this
    {
      Db(log, props, nextId)
    }

    constructor ()
      ensures View() == Db([], map[], 0)
    {
      log, props, nextId := [], map[], 0;
    }

    method PurgeSpanPropositions(s: SpanId) returns (superseded: seq<PropId>)
      modifies this`props
      ensures superseded == Ids(PropsOf(old(View()), s)) && props == old(props)[s := []]
    {
      superseded := Ids(PropsOf(View(), s));
      props := props[s := []];
    }

    method WritePropositions(s: SpanId, drafts: seq<Draft>, verdicts: seq<Option<Verdict>>, quality: real)
      returns (fresh_: seq<Prop>)
      requires |verdicts| == |drafts|
      modifies this`props, this`nextId
      ensures fresh_ == Minted(old(nextId), drafts, verdicts, quality) && |fresh_| == |drafts|
      ensures props == old(props)[s := PropsOf(old(View()), s) + fresh_] && nextId == old(nextId) + |drafts|
    {
      hide Faithfulness, ReasonsFor;
      fresh_ := [];
      ghost var goal := Minted(nextId, drafts, verdicts, quality);
      var kept := PropsOf(View(), s);
      for i := 0 to |drafts|
        invariant nextId == old(nextId) + i && fresh_ == goal[..i] && kept == PropsOf(old(View()), s)
        invariant props == old(props)
      {
        var faithfulness := Faithfulness(verdicts[i], drafts[i].agreement, quality);
        var reasons := (if drafts[i].unstable then {PolarityUnstable} else {}) + ReasonsFor(faithfulness);
        fresh_ := fresh_ + [Prop(PropId(nextId), drafts[i].agreement, faithfulness, reasons, drafts[i].space)];
        nextId := nextId + 1;
      }
      props := props[s := kept + fresh_];
    }

    /** The identity is stamped only when no verdict is missing. */
    method RecordVerifyAction(s: SpanId, who: Sig, ps: seq<Prop>, verdicts: seq<Option<Verdict>>)
      requires |verdicts| == |ps|
      modifies this`log
      ensures log == old(log) + [VerifyAction(s, who, ps, verdicts)]
    {
      var rows: seq<Row>, clean := [], true;
      ghost var goal := RowsOf(ps, verdicts);
      for i := 0 to |ps|
        invariant rows == goal[..i] && (clean <==> None !in verdicts[..i])
      {
        rows := rows + [Row(ps[i].id, verdicts[i], ps[i].faithfulness)];
        clean := clean && verdicts[i].Some?;
      }
      assert verdicts[..|ps|] == verdicts && rows == goal;
      log := log + [Verify(s, Ids(ps), who, if clean then Some(who) else None, rows)];
    }

    /** One span's extraction, in one transaction. */
    method Persist(s: SpanId, hash: Hash, drafts: seq<Draft>, verifier: Option<Sig>, verdicts: seq<Option<Verdict>>,
                   quality: real, purgeExisting: bool)
      requires |verdicts| == |drafts|
      modifies this
      ensures View() == Persisted(old(View()), s, hash, drafts, verifier, verdicts, quality, purgeExisting)
    {
      hide Minted;
      var superseded: seq<PropId> := [];
      if purgeExisting {
        superseded := PurgeSpanPropositions(s);
      }
      var fresh_ := WritePropositions(s, drafts, verdicts, quality);
      log := log + [Extract(s, hash, Ids(fresh_), superseded, None, None)];
      if verifier.Some? && drafts != [] {
        RecordVerifyAction(s, verifier.value, fresh_, verdicts);
      }
    }

    /** One span's replay, in one transaction. */
    method PersistReplay(s: SpanId, hash: Hash, r: Reusable, present: Option<Sig>, purgeExisting: bool)
      modifies this
      ensures View() == Replayed(old(View()), s, hash, r, present, purgeExisting)
    {
      hide CopyOf, Ids;
      var superseded: seq<PropId> := [];
      if purgeExisting {
        superseded := PurgeSpanPropositions(s);
      }
      assert superseded == if purgeExisting then Ids(PropsOf(old(View()), s)) else [];
      var copies: seq<Prop> := [];
      ghost var goal := Copies(nextId, r, present);
      var kept := PropsOf(View(), s);
      for i := 0 to |r.props|
        invariant nextId == old(nextId) + i && copies == goal[..i]
        invariant kept == if purgeExisting then [] else PropsOf(old(View()), s)
        invariant log == old(log) && props == if purgeExisting then old(props)[s := []] else old(props)
      {
        copies := copies + [CopyOf(r.props[i], PropId(nextId), r.sig == present)];
        nextId := nextId + 1;
      }
      assert copies == goal;
      props := props[s := kept + copies];
      log := log + [Extract(s, hash, Ids(copies), superseded, Some(r.source), r.sig)];
    }

    /** Re-verifies a span's propositions in place, in one transaction. */
    method VerifyBackfillSpan(s: SpanId, who: Sig, verdicts: seq<Option<Verdict>>, quality: real) returns (wrote: bool)
      requires |verdicts| == |PropsOf(View(), s)|
      modifies this
      ensures View() == Reverified(old(View()), s, who, verdicts, quality)
      ensures wrote <==> PropsOf(old(View()), s) != []
    {
      hide Faithfulness, Reassess;
      var ps := PropsOf(View(), s);
      if ps == [] {
        return false;
      }
      var scored: seq<Prop> := [];
      ghost var goal := Rescored(ps, verdicts, quality);
      for i := 0 to |ps|
        invariant scored == goal[..i] && View() == old(View())
      {
        var faithfulness := Faithfulness(verdicts[i], ps[i].agreement, quality);
        scored := scored + [ps[i].(faithfulness := faithfulness, reasons := Reassess(ps[i].reasons, faithfulness))];
      }
      assert scored == goal;
      props := props[s := scored];
      RecordVerifyAction(s, who, scored, verdicts);
      wrote := true;
    }

    method BackfillVerification(cfg: Config, env: Env, spans: seq<SpanId>) returns (backfilled: seq<SpanId>)
      modifies this
      ensures View() == Backfilled(old(View()), cfg, env, spans)
      ensures backfilled == BackfilledSpans(old(View()), cfg, env, spans)
    {
      hide Reverified, SpanVerifyIdentity;
      backfilled := [];
      if cfg.verifier.None? {
        NothingToBackfill(View(), cfg, env, spans);
        return;
      }
      for i := 0 to |spans|
        invariant View() == Backfilled(old(View()), cfg, env, spans[..i])
        invariant backfilled == BackfilledSpans(old(View()), cfg, env, spans[..i])
      {
        var s := spans[i];
        assert spans[..i + 1][..i] == spans[..i];
        if SpanVerifyIdentity(View(), s) != cfg.verifier && !env.backfillRaises(s) {
          var wrote := VerifyBackfillSpan(s, cfg.verifier.value, Reverdicts(env, s, |PropsOf(View(), s)|), cfg.quality(s));
          if wrote {
            backfilled := backfilled + [s];
          }
        }
      }
      assert spans[..|spans|] == spans;
    }

    /** Compares each span's stored hash with the present one: which spans to infer or to replay,
        which of them supersede an earlier generation, or the refusal that ends the run. */
    method Triage(cfg: Config, env: Env, spans: seq<SpanId>)
      returns (why: Refusal, pending: seq<SpanId>, toReplay: seq<SpanId>, reusable: map<SpanId, Reusable>,
               superseded: set<SpanId>)
      ensures why == FirstRefusal(View(), cfg, env, spans)
      ensures why.Allowed? ==> pending == Pending(View(), cfg, spans) && toReplay == ToReplay(View(), cfg, spans)
      ensures why.Allowed? ==>
                forall s :: s in toReplay ==> s in reusable && Reuse(View(), cfg, s) == Some(reusable[s])
      ensures why.Allowed? ==>
                forall s :: s in superseded <==> (s in pending || s in toReplay) && Superseded(View(), cfg, s)
    {
      hide ExtractedHash, Reuse;
      pending, toReplay, reusable, superseded := [], [], map[], {};
      if env.vectors.Some? && env.vectors.value != cfg.space {
        why := EmbeddingModelMismatch(env.vectors.value);
        return;
      }
      for i := 0 to |spans|
        invariant pending == Pending(View(), cfg, spans[..i]) && toReplay == ToReplay(View(), cfg, spans[..i])
        invariant RefusingSpan(View(), cfg, env, spans[..i]) == Allowed
        invariant forall s :: s in toReplay ==> s in reusable
        invariant forall s :: s in reusable ==> Reuse(View(), cfg, s) == Some(reusable[s])
        invariant forall s :: s in superseded <==> (s in pending || s in toReplay) && Superseded(View(), cfg, s)
      {
        var s := spans[i];
        assert spans[..i + 1][..i] == spans[..i];
        var stored := ExtractedHash(View(), s);
        if stored != Some(cfg.hash(s)) {
          if stored.Some? {
            if !cfg.cascade {
              RefusedEarly(View(), cfg, env, spans, i);
              return StaleExtraction(s), [], [], map[], {};
            }
            if env.dependents(s) {
              RefusedEarly(View(), cfg, env, spans, i);
              return CascadeDependents(s), [], [], map[], {};
            }
            superseded := superseded + {s};
          }
          match Reuse(View(), cfg, s)
          case None => pending := pending + [s];
          case Some(r) =>
            toReplay := toReplay + [s];
            reusable := reusable[s := r];
        }
      }
      assert spans[..|spans|] == spans;
      why := Allowed;
    }

    /** Runs inference on every pending span; a span whose call raises is set aside. */
    method InferAll(cfg: Config, env: Env, pending: seq<SpanId>)
      returns (drafts: map<SpanId, seq<Draft>>, failed: seq<SpanId>)
      ensures forall s :: s in drafts <==> s in pending && env.infer(s).Some?
      ensures forall s :: s in drafts ==> drafts[s] == Inferred(cfg, env, s)
      ensures forall s :: s in failed <==> s in pending && env.infer(s).None?
    {
      failed, drafts := [], map[];
      for i := 0 to |pending|
        invariant forall s :: s in drafts <==> s in pending[..i] && env.infer(s).Some?
        invariant forall s :: s in drafts ==> drafts[s] == Inferred(cfg, env, s)
        invariant forall s :: s in failed <==> s in pending[..i] && env.infer(s).None?
      {
        match env.infer(pending[i])
        case None => failed := failed + [pending[i]];
        case Some(claims) => drafts := drafts[pending[i] := Inferred(cfg, env, pending[i])];
      }
    }

    /** Writes the inferred spans one transaction at a time; one that raises is rolled back. */
    method PersistAll(cfg: Config, env: Env, pending: seq<SpanId>, superseded: set<SpanId>,
                      drafts: map<SpanId, seq<Draft>>)
      returns (failed: seq<SpanId>)
      requires forall s :: s in drafts <==> s in pending && env.infer(s).Some?
      requires forall s :: s in drafts ==> drafts[s] == Inferred(cfg, env, s)
      requires forall s :: s in pending ==> (s in superseded <==> Superseded(View(), cfg, s))
      modifies this
      ensures View() == Extracted(old(View()), cfg, env, pending)
      ensures forall s :: s in failed <==> s in pending && env.infer(s).Some? && env.persistRaises(s)
    {
      hide Persisted, Superseded;
      failed := [];
      for i := 0 to |pending|
        invariant View() == Extracted(old(View()), cfg, env, pending[..i])
        invariant forall s :: s in failed <==> s in pending[..i] && env.infer(s).Some? && env.persistRaises(s)
      {
        var s := pending[i];
        assert pending[..i + 1][..i] == pending[..i];
        if s in drafts {
          if env.persistRaises(s) {
            failed := failed + [s];
          } else {
            Persist(s, cfg.hash(s), drafts[s], cfg.verifier, VerdictsFor(cfg, env, s, |drafts[s]|), cfg.quality(s),
                    s in superseded);
          }
        }
      }
      assert pending[..|pending|] == pending;
    }

    /** Writes the replays one transaction at a time; one that raises, in rebuilding or in writing,
        is left out. */
    method ReplayAll(cfg: Config, env: Env, ghost start: Db, toReplay: seq<SpanId>, reusable: map<SpanId, Reusable>,
                     superseded: set<SpanId>)
      returns (failed: seq<SpanId>)
      requires forall s :: s in toReplay ==> s in reusable && Reuse(start, cfg, s) == Some(reusable[s])
      requires forall s :: s in toReplay ==> (s in superseded <==> Superseded(start, cfg, s))
      modifies this
      ensures View() == ReplayedAll(start, old(View()), cfg, env, toReplay)
      ensures forall s :: s in failed <==> s in toReplay && !ReplayCommits(env, s)
    {
      hide Replayed, Superseded, Reuse;
      failed := [];
      for i := 0 to |toReplay|
        invariant View() == ReplayedAll(start, old(View()), cfg, env, toReplay[..i])
        invariant forall s :: s in failed <==> s in toReplay[..i] && !ReplayCommits(env, s)
      {
        var s := toReplay[i];
        assert toReplay[..i + 1][..i] == toReplay[..i];
        if env.replayRaises(s) || env.persistRaises(s) {
          failed := failed + [s];
        } else {
          PersistReplay(s, cfg.hash(s), reusable[s], cfg.verifier, s in superseded);
        }
      }
      assert toReplay[..|toReplay|] == toReplay;
    }

    /** One run over a document's spans. */
    method PropositionizeDocument(cfg: Config, env: Env, spans: seq<SpanId>) returns (r: Outcome)
      modifies this
      ensures View() == Ran(old(View()), cfg, env, spans)
      ensures r.Refused? <==> FirstRefusal(old(View()), cfg, env, spans) != Allowed
      ensures r.Refused? ==> r.why == FirstRefusal(old(View()), cfg, env, spans) && View() == old(View())
      ensures r.Report? ==> forall s :: s in r.failed <==> Fails(old(View()), cfg, env, spans, s)
      ensures r.Report? ==> r.backfilled == BackfilledSpans(Written(old(View()), cfg, env, spans), cfg, env, spans)
    {
      hide Superseded, Extracted, Backfilled, Pending, ToReplay, FirstRefusal, ReplayedAll, Reuse, BackfilledSpans;
      var why, pending, toReplay, reusable, superseded := Triage(cfg, env, spans);
      if why != Allowed {
        return Refused(why);
      }
      var drafts, uninferred := InferAll(cfg, env, pending);
      var unwritten := PersistAll(cfg, env, pending, superseded, drafts);
      var unreplayed := ReplayAll(cfg, env, old(View()), toReplay, reusable, superseded);
      var backfilled := BackfillVerification(cfg, env, spans);
      r := Report(uninferred + unwritten + unreplayed, backfilled);
    }
  }

  /** The span was to be inferred or replayed, and its call or its write raised. */
  ghost predicate Fails(db: Db, cfg: Config, env: Env, spans: seq<SpanId>, s: SpanId) {
    (s in Pending(db, cfg, spans) && !Commits(env, s)) || (s in ToReplay(db, cfg, spans) && !ReplayCommits(env, s))
  }

  lemma {:induction false} NothingToBackfill(db: Db, cfg: Config, env: Env, spans: seq<SpanId>)
    requires cfg.verifier.None?
    ensures Backfilled(db, cfg, env, spans) == db && BackfilledSpans(db, cfg, env, spans) == []
  {
    if spans != [] {
      NothingToBackfill(db, cfg, env, spans[..|spans| - 1]);
    }
  }

  /** A refusal stands whatever the spans after it. */
  lemma {:induction false} RefusedEarly(db: Db, cfg: Config, env: Env, spans: seq<SpanId>, i: nat)
    requires i < |spans| && RefusingSpan(db, cfg, env, spans[..i]) == Allowed
    requires RefusalAt(db, cfg, env, spans[i]) != Allowed
    ensures RefusingSpan(db, cfg, env, spans) == RefusalAt(db, cfg, env, spans[i])
  {
    if i == |spans| - 1 {
      assert spans[..|spans| - 1] == spans[..i];
    } else {
      assert spans[..|spans| - 1][..i] == spans[..i];
      RefusedEarly(db, cfg, env, spans[..|spans| - 1], i);
    }
  }

  // ---------------------------------------------------------------- every run keeps the store sound

  lemma {:induction false} PendingIs(db: Db, cfg: Config, spans: seq<SpanId>)
    requires Distinct(spans)
    ensures Distinct(Pending(db, cfg, spans)) && Distinct(ToReplay(db, cfg, spans))
    ensures forall s :: s in Pending(db, cfg, spans) <==> s in spans && Owed(db, cfg, s) && Reuse(db, cfg, s).None?
    ensures forall s :: s in ToReplay(db, cfg, spans) <==> s in spans && Owed(db, cfg, s) && Reuse(db, cfg, s).Some?
  {
    hide Owed, Reuse;
    if spans != [] {
      var front, last := spans[..|spans| - 1], spans[|spans| - 1];
      assert spans == front + [last];
      assert last !in front;
      PendingIs(db, cfg, front);
      if Owed(db, cfg, last) {
        DistinctAppend(Pending(db, cfg, front), last);
        DistinctAppend(ToReplay(db, cfg, front), last);
      }
    }
  }

  lemma UntouchedTransitive(a: Db, b: Db, c: Db, s: SpanId)
    requires Untouched(a, b, s) && Untouched(b, c, s)
    ensures Untouched(a, c, s)
  {
  }

  lemma {:induction false} ExtractedTouchesPending(start: Db, cfg: Config, env: Env, pending: seq<SpanId>, t: SpanId)
    requires t !in pending
    ensures Untouched(start, Extracted(start, cfg, env, pending), t)
  {
    if pending != [] {
      var front, s := pending[..|pending| - 1], pending[|pending| - 1];
      assert pending == front + [s];
      ExtractedTouchesPending(start, cfg, env, front, t);
      if Commits(env, s) {
        var db, ds := Extracted(start, cfg, env, front), Inferred(cfg, env, s);
        var vs := VerdictsFor(cfg, env, s, |ds|);
        PersistTouchesOne(db, s, cfg.hash(s), ds, cfg.verifier, vs, cfg.quality(s), Superseded(start, cfg, s), t);
        hide Persisted, Untouched;
        UntouchedTransitive(start, db, ExtractedOne(start, db, cfg, env, s), t);
      }
    }
  }

  lemma {:induction false} ExtractedKeepsSound(start: Db, cfg: Config, env: Env, pending: seq<SpanId>)
    requires Sound(start, cfg.quality) && Distinct(pending) && forall s :: s in pending ==> Owed(start, cfg, s)
    ensures Sound(Extracted(start, cfg, env, pending), cfg.quality)
  {
    hide Sound, Persisted, Distinct;
    if pending != [] {
      var front, s := pending[..|pending| - 1], pending[|pending| - 1];
      assert pending == front + [s];
      DistinctFront(front, s);
      ExtractedKeepsSound(start, cfg, env, front);
      if Commits(env, s) {
        var db, ds := Extracted(start, cfg, env, front), Inferred(cfg, env, s);
        ExtractedTouchesPending(start, cfg, env, front, s);
        LastIsIn(start.log, s);
        PersistKeepsSound(db, s, cfg.hash(s), ds, cfg.verifier, VerdictsFor(cfg, env, s, |ds|), cfg.quality,
                          Superseded(start, cfg, s));
      }
    }
  }

  lemma {:induction false} ReplayedTouches(start: Db, db: Db, cfg: Config, env: Env, toReplay: seq<SpanId>, t: SpanId)
    requires t !in toReplay || !ReplayCommits(env, t)
    ensures Untouched(db, ReplayedAll(start, db, cfg, env, toReplay), t)
  {
    if toReplay != [] {
      var front, s := toReplay[..|toReplay| - 1], toReplay[|toReplay| - 1];
      assert toReplay == front + [s];
      ReplayedTouches(start, db, cfg, env, front, t);
      var mid := ReplayedAll(start, db, cfg, env, front);
      if ReplayedOne(start, mid, cfg, env, s) != mid {
        ReplayTouchesOne(mid, s, cfg.hash(s), Reuse(start, cfg, s).value, cfg.verifier, Superseded(start, cfg, s), t);
        hide Replayed, Untouched;
        UntouchedTransitive(db, mid, ReplayedOne(start, mid, cfg, env, s), t);
      }
    }
  }

  lemma ReuseIsFlagged(db: Db, cfg: Config, s: SpanId)
    requires Sound(db, cfg.quality) && Reuse(db, cfg, s).Some?
    ensures AllFlagged(Reuse(db, cfg, s).value.props)
  {
    hide FindReusable, Sound;
    ReusableIsFlagged(db, cfg.hash(s), cfg.quality);
    assert forall i :: 0 <= i < |Reuse(db, cfg, s).value.props| ==>
        FlaggedRight(FindReusable(db, cfg.hash(s)).value.props[i]);
  }

  lemma NotSuperseded(start: Db, db: Db, cfg: Config, s: SpanId)
    requires Owed(start, cfg, s) && Untouched(start, db, s)
    ensures Superseded(start, cfg, s) || LastExtract(db.log, s).None?
  {
    LastIsIn(start.log, s);
  }

  lemma {:induction false} ReplayedKeepsSound(start: Db, db: Db, cfg: Config, env: Env, toReplay: seq<SpanId>)
    requires Sound(start, cfg.quality) && Sound(db, cfg.quality) && Distinct(toReplay)
    requires forall s :: s in toReplay ==> Owed(start, cfg, s) && Untouched(start, db, s)
    ensures Sound(ReplayedAll(start, db, cfg, env, toReplay), cfg.quality)
  {
    hide Sound, Replayed, Distinct, Owed, Superseded, Untouched, Reuse;
    if toReplay != [] {
      var front, s := toReplay[..|toReplay| - 1], toReplay[|toReplay| - 1];
      assert toReplay == front + [s];
      DistinctFront(front, s);
      ReplayedKeepsSound(start, db, cfg, env, front);
      var mid := ReplayedAll(start, db, cfg, env, front);
      if ReplayedOne(start, mid, cfg, env, s) != mid {
        ReplayedTouches(start, db, cfg, env, front, s);
        UntouchedTransitive(start, db, mid, s);
        NotSuperseded(start, mid, cfg, s);
        ReuseIsFlagged(start, cfg, s);
        ReplayKeepsSound(mid, s, cfg.hash(s), Reuse(start, cfg, s).value, cfg.verifier, Superseded(start, cfg, s),
                         cfg.quality);
      }
    }
  }

  /** The spans to replay are not among those inferred. */
  lemma InferenceLeavesReplaysAlone(db: Db, cfg: Config, env: Env, spans: seq<SpanId>)
    requires Distinct(spans)
    ensures forall s :: s in ToReplay(db, cfg, spans) ==>
              Owed(db, cfg, s) && Untouched(db, Extracted(db, cfg, env, Pending(db, cfg, spans)), s)
  {
    hide Owed, Reuse, Untouched, Extracted, Distinct;
    PendingIs(db, cfg, spans);
    forall s | s in ToReplay(db, cfg, spans)
      ensures Untouched(db, Extracted(db, cfg, env, Pending(db, cfg, spans)), s)
    {
      ExtractedTouchesPending(db, cfg, env, Pending(db, cfg, spans), s);
    }
  }

  lemma WrittenKeepsSound(db: Db, cfg: Config, env: Env, spans: seq<SpanId>)
    requires Sound(db, cfg.quality) && Distinct(spans)
    ensures Sound(Written(db, cfg, env, spans), cfg.quality)
  {
    hide Sound, Distinct, Extracted, ReplayedAll, Owed, Reuse, Untouched;
    PendingIs(db, cfg, spans);
    ExtractedKeepsSound(db, cfg, env, Pending(db, cfg, spans));
    InferenceLeavesReplaysAlone(db, cfg, env, spans);
    ReplayedKeepsSound(db, Extracted(db, cfg, env, Pending(db, cfg, spans)), cfg, env, ToReplay(db, cfg, spans));
  }

  /** Neither inference nor replay touches a span that is not owed or whose attempt failed. */
  lemma WrittenTouches(db: Db, cfg: Config, env: Env, spans: seq<SpanId>, t: SpanId)
    requires Distinct(spans) && (t !in spans || !Owed(db, cfg, t) || !Lands(db, cfg, env, t))
    ensures Untouched(db, Written(db, cfg, env, spans), t)
  {
    PendingIs(db, cfg, spans);
    hide Distinct, Extracted, ReplayedAll, Owed, Reuse, Untouched, Commits, ReplayCommits;
    var mid := Extracted(db, cfg, env, Pending(db, cfg, spans));
    if t in Pending(db, cfg, spans) {
      FailureIsSkipped(db, cfg, env, Pending(db, cfg, spans), t);
    } else {
      ExtractedTouchesPending(db, cfg, env, Pending(db, cfg, spans), t);
    }
    ReplayedTouches(db, mid, cfg, env, ToReplay(db, cfg, spans), t);
    UntouchedTransitive(db, mid, Written(db, cfg, env, spans), t);
  }

  lemma DistinctFront(front: seq<SpanId>, s: SpanId)
    requires Distinct(front + [s])
    ensures Distinct(front) && s !in front
  {
    forall i, j | 0 <= i < j < |front|
      ensures front[i] != front[j]
    {
      assert (front + [s])[i] != (front + [s])[j];
    }
    forall i | 0 <= i < |front|
      ensures front[i] != s
    {
      assert (front + [s])[i] != (front + [s])[|front|];
    }
  }

  lemma {:induction false} BackfilledKeepsSound(db: Db, cfg: Config, env: Env, spans: seq<SpanId>)
    requires Sound(db, cfg.quality)
    ensures Sound(Backfilled(db, cfg, env, spans), cfg.quality)
  {
    hide Sound, Reverified, SpanVerifyIdentity;
    if spans != [] {
      var front, s := spans[..|spans| - 1], spans[|spans| - 1];
      BackfilledKeepsSound(db, cfg, env, front);
      var mid := Backfilled(db, cfg, env, front);
      if BackfilledOne(mid, cfg, env, s) != mid {
        ReverifyKeepsSound(mid, s, cfg.verifier.value, Reverdicts(env, s, |PropsOf(mid, s)|), cfg.quality);
      }
    }
  }

  /** Verifier on, off or changed, degraded verdicts, cascades, raised calls and rollbacks: the
      store stays sound, so whatever identity a span answers with is backed by its scores. */
  lemma RunKeepsSound(db: Db, cfg: Config, env: Env, spans: seq<SpanId>)
    requires Sound(db, cfg.quality) && Distinct(spans)
    ensures Sound(Ran(db, cfg, env, spans), cfg.quality)
  {
    hide Sound, Distinct, Written, Backfilled;
    if FirstRefusal(db, cfg, env, spans) == Allowed {
      WrittenKeepsSound(db, cfg, env, spans);
      BackfilledKeepsSound(Written(db, cfg, env, spans), cfg, env, spans);
    }
  }

  lemma EmptyStoreIsSound(quality: SpanId -> real)
    ensures Sound(Db([], map[], 0), quality)
  {
  }

  /** A series of runs with one document, each with its own settings and its own outcomes. */
  datatype Run = Run(verifier: Option<Sig>, cascade: bool, reuse: bool, space: Space, hash: SpanId -> Hash, env: Env,
                     spans: seq<SpanId>)

  function SettingsOf(r: Run, quality: SpanId -> real): Config {
    Config(r.verifier, r.cascade, r.reuse, r.space, r.hash, quality)
  }

  ghost function RanAll(db: Db, runs: seq<Run>, quality: SpanId -> real): Db {
    if runs == [] then db
    else
      var r := runs[|runs| - 1];
      Ran(RanAll(db, runs[..|runs| - 1], quality), SettingsOf(r, quality), r.env, r.spans)
  }

  lemma {:induction false} EveryHistoryIsSound(runs: seq<Run>, quality: SpanId -> real)
    requires forall i :: 0 <= i < |runs| ==> Distinct(runs[i].spans)
    ensures Sound(RanAll(Db([], map[], 0), runs, quality), quality)
  {
    hide Ran, Sound, Distinct;
    EmptyStoreIsSound(quality);
    if runs != [] {
      var r := runs[|runs| - 1];
      EveryHistoryIsSound(runs[..|runs| - 1], quality);
      RunKeepsSound(RanAll(Db([], map[], 0), runs[..|runs| - 1], quality), SettingsOf(r, quality),
                    r.env, r.spans);
    }
  }

  /** The guarantee, over every history of runs: a span that answers with a verifier's identity
      has, on each of its present propositions, the score of a verdict of that verifier, unless it
      was replayed under that name. */
  lemma IdentityIsBackedInEveryHistory(runs: seq<Run>, quality: SpanId -> real, s: SpanId, sig: Sig)
    requires forall i :: 0 <= i < |runs| ==> Distinct(runs[i].spans)
    requires SpanVerifyIdentity(RanAll(Db([], map[], 0), runs, quality), s) == Some(sig)
    ensures var db := RanAll(Db([], map[], 0), runs, quality);
            ScoredBy(db, s, quality(s), sig) || ReplayedUnder(db, s, sig)
  {
    hide RanAll, SpanSound, SpanVerifyIdentity, ScoredBy, ReplayedUnder;
    EveryHistoryIsSound(runs, quality);
    var db := RanAll(Db([], map[], 0), runs, quality);
    assert SpanSound(db, s, quality(s));
    IdentityMeansVerified(db, s, quality(s), sig);
  }

  /** No extraction in the log is a replay. */
  ghost predicate NoneReplayed(log: seq<Action>) {
    forall a :: a in log && a.Extract? ==> a.source.None?
  }

  lemma {:induction false} ExtractedReplaysNothing(start: Db, cfg: Config, env: Env, pending: seq<SpanId>)
    requires NoneReplayed(start.log)
    ensures NoneReplayed(Extracted(start, cfg, env, pending).log)
  {
    if pending != [] {
      ExtractedReplaysNothing(start, cfg, env, pending[..|pending| - 1]);
      hide Minted, Superseded, ExtractedHash, Ids, PropsOf;
    }
  }

  lemma {:induction false} BackfillReplaysNothing(db: Db, cfg: Config, env: Env, spans: seq<SpanId>)
    requires NoneReplayed(db.log)
    ensures NoneReplayed(Backfilled(db, cfg, env, spans).log)
  {
    if spans != [] {
      BackfillReplaysNothing(db, cfg, env, spans[..|spans| - 1]);
      hide Rescored, SpanVerifyIdentity, PropsOf;
    }
  }

  lemma {:induction false} NothingToReplay(db: Db, cfg: Config, spans: seq<SpanId>)
    requires !cfg.reuse
    ensures ToReplay(db, cfg, spans) == []
  {
    if spans != [] {
      NothingToReplay(db, cfg, spans[..|spans| - 1]);
    }
  }

  lemma {:induction false} NoneReplayedWithoutReuse(runs: seq<Run>, quality: SpanId -> real)
    requires forall i :: 0 <= i < |runs| ==> !runs[i].reuse
    ensures NoneReplayed(RanAll(Db([], map[], 0), runs, quality).log)
  {
    hide NoneReplayed, Extracted, Backfilled, FirstRefusal, Pending;
    if runs != [] {
      var r, db := runs[|runs| - 1], RanAll(Db([], map[], 0), runs[..|runs| - 1], quality);
      var cfg := SettingsOf(r, quality);
      NoneReplayedWithoutReuse(runs[..|runs| - 1], quality);
      NothingToReplay(db, cfg, r.spans);
      ExtractedReplaysNothing(db, cfg, r.env, Pending(db, cfg, r.spans));
      BackfillReplaysNothing(Written(db, cfg, r.env, r.spans), cfg, r.env, r.spans);
    } else {
      assert NoneReplayed([]) by { EmptyLogReplaysNothing(); }
    }
  }

  lemma EmptyLogReplaysNothing()
    ensures NoneReplayed([])
  {
  }

  lemma NotReplayedUnder(db: Db, s: SpanId, sig: Sig)
    requires NoneReplayed(db.log)
    ensures !ReplayedUnder(db, s, sig)
  {
    LastIsIn(db.log, s);
  }

  /** With reuse off the guarantee is unconditional: over every history, an answered identity means
      a score of that verifier on every proposition. */
  lemma IdentityIsBackedWithoutReuse(runs: seq<Run>, quality: SpanId -> real, s: SpanId, sig: Sig)
    requires forall i :: 0 <= i < |runs| ==> Distinct(runs[i].spans) && !runs[i].reuse
    requires SpanVerifyIdentity(RanAll(Db([], map[], 0), runs, quality), s) == Some(sig)
    ensures ScoredBy(RanAll(Db([], map[], 0), runs, quality), s, quality(s), sig)
  {
    hide *;
    IdentityIsBackedInEveryHistory(runs, quality, s, sig);
    NoneReplayedWithoutReuse(runs, quality);
    NotReplayedUnder(RanAll(Db([], map[], 0), runs, quality), s, sig);
  }

  // ---------------------------------------------------------------- isolation

  lemma {:induction false} BackfilledTouchesSpans(db: Db, cfg: Config, env: Env, spans: seq<SpanId>, t: SpanId)
    requires t !in spans
    ensures Untouched(db, Backfilled(db, cfg, env, spans), t)
  {
    hide Reverified, SpanVerifyIdentity;
    if spans != [] {
      var front, s := spans[..|spans| - 1], spans[|spans| - 1];
      assert spans == front + [s];
      BackfilledTouchesSpans(db, cfg, env, front, t);
      var mid := Backfilled(db, cfg, env, front);
      if BackfilledOne(mid, cfg, env, s) != mid {
        ReverifyTouchesOne(mid, s, cfg.verifier.value, Reverdicts(env, s, |PropsOf(mid, s)|), cfg.quality(s), t);
      }
    }
  }

  /** A run touches no span outside its document. */
  lemma RunTouchesItsSpans(db: Db, cfg: Config, env: Env, spans: seq<SpanId>, t: SpanId)
    requires Distinct(spans) && t !in spans
    ensures Untouched(db, Ran(db, cfg, env, spans), t)
  {
    hide Untouched, Written, Backfilled, Distinct, Owed, Lands;
    UntouchedReflexive(db, t);
    if FirstRefusal(db, cfg, env, spans) == Allowed {
      var mid := Written(db, cfg, env, spans);
      WrittenTouches(db, cfg, env, spans, t);
      BackfilledTouchesSpans(mid, cfg, env, spans, t);
      UntouchedTransitive(db, mid, Backfilled(mid, cfg, env, spans), t);
    }
  }

  lemma UntouchedReflexive(db: Db, s: SpanId)
    ensures Untouched(db, db, s)
  {
  }

  /** Re-verification never re-extracts. */
  lemma {:induction false} BackfillKeepsExtracts(db: Db, cfg: Config, env: Env, spans: seq<SpanId>, t: SpanId)
    ensures LastExtract(Backfilled(db, cfg, env, spans).log, t) == LastExtract(db.log, t)
    ensures Ids(PropsOf(Backfilled(db, cfg, env, spans), t)) == Ids(PropsOf(db, t))
  {
    hide Reverified, SpanVerifyIdentity, Ids;
    if spans != [] {
      var front, s := spans[..|spans| - 1], spans[|spans| - 1];
      BackfillKeepsExtracts(db, cfg, env, front, t);
      var mid := Backfilled(db, cfg, env, front);
      if BackfilledOne(mid, cfg, env, s) != mid {
        var vs := Reverdicts(env, s, |PropsOf(mid, s)|);
        ReverifyMintsNothing(mid, s, cfg.verifier.value, vs, cfg.quality(s));
        if t != s {
          ReverifyTouchesOne(mid, s, cfg.verifier.value, vs, cfg.quality(s), t);
        }
      }
    }
  }

  lemma {:induction false} FailureIsSkipped(start: Db, cfg: Config, env: Env, pending: seq<SpanId>, s: SpanId)
    requires !Commits(env, s)
    ensures Untouched(start, Extracted(start, cfg, env, pending), s)
  {
    if pending != [] {
      var front, t := pending[..|pending| - 1], pending[|pending| - 1];
      FailureIsSkipped(start, cfg, env, front, s);
      if Commits(env, t) {
        var db, ds := Extracted(start, cfg, env, front), Inferred(cfg, env, t);
        PersistTouchesOne(db, t, cfg.hash(t), ds, cfg.verifier, VerdictsFor(cfg, env, t, |ds|), cfg.quality(t),
                          Superseded(start, cfg, t), s);
        hide Persisted, Untouched;
        UntouchedTransitive(start, db, ExtractedOne(start, db, cfg, env, t), s);
      }
    }
  }

  /** A span whose inference, replay or write failed keeps its propositions and is owed again. */
  lemma FailedSpanIsRetried(db: Db, cfg: Config, env: Env, spans: seq<SpanId>, s: SpanId)
    requires Distinct(spans) && Owed(db, cfg, s) && !Lands(db, cfg, env, s)
    ensures Owed(Ran(db, cfg, env, spans), cfg, s)
    ensures Ids(PropsOf(Ran(db, cfg, env, spans), s)) == Ids(PropsOf(db, s))
  {
    hide Written, Backfilled, Lands, Ids, Distinct;
    if FirstRefusal(db, cfg, env, spans) == Allowed {
      var mid := Written(db, cfg, env, spans);
      WrittenTouches(db, cfg, env, spans, s);
      BackfillKeepsExtracts(mid, cfg, env, spans, s);
    }
  }

  // ---------------------------------------------------------------- a repeated run

  /** Nothing is owed for the span: its extraction is current, and so is its verification. */
  predicate Settled(db: Db, cfg: Config, s: SpanId) {
    !Owed(db, cfg, s) && (cfg.verifier.None? || SpanVerifyIdentity(db, s) == cfg.verifier || PropsOf(db, s) == [])
  }

  lemma {:induction false} NothingPending(db: Db, cfg: Config, env: Env, spans: seq<SpanId>)
    requires forall s :: s in spans ==> !Owed(db, cfg, s)
    ensures Pending(db, cfg, spans) == [] && ToReplay(db, cfg, spans) == []
    ensures RefusingSpan(db, cfg, env, spans) == Allowed
  {
    if spans != [] {
      NothingPending(db, cfg, env, spans[..|spans| - 1]);
    }
  }

  lemma {:induction false} NothingStale(db: Db, cfg: Config, env: Env, spans: seq<SpanId>)
    requires forall s :: s in spans ==> Settled(db, cfg, s)
    ensures Backfilled(db, cfg, env, spans) == db
  {
    if spans != [] {
      NothingStale(db, cfg, env, spans[..|spans| - 1]);
      assert Settled(db, cfg, spans[|spans| - 1]);
    }
  }

  /** A settled document is left exactly as it is, whatever the outside would answer. */
  lemma SettledRunWritesNothing(db: Db, cfg: Config, env: Env, spans: seq<SpanId>)
    requires forall s :: s in spans ==> Settled(db, cfg, s)
    ensures Ran(db, cfg, env, spans) == db
  {
    NothingPending(db, cfg, env, spans);
    NothingStale(db, cfg, env, spans);
    hide Settled, Backfilled, Owed;
  }

  /** Every call answers and nothing raises. */
  ghost predicate Clean(env: Env) {
    && (forall s :: Commits(env, s) && ReplayCommits(env, s))
    && (forall s :: !env.backfillRaises(s))
    && (forall s, i :: env.verdict(s, i).Some?)
    && (forall s, i :: env.reverdict(s, i).Some?)
  }

  lemma CleanVerdicts(cfg: Config, env: Env, s: SpanId)
    requires Clean(env)
    ensures env.infer(s).Some? && Commits(env, s)
    ensures cfg.verifier.Some? ==> None !in VerdictsFor(cfg, env, s, |Inferred(cfg, env, s)|)
  {
    assert Commits(env, s);
  }

  lemma SettledBy(db: Db, cfg: Config, s: SpanId, ps: seq<Prop>, verify: Option<Action>)
    requires PropsOf(db, s) == ps && ExtractedHash(db, s) == Some(cfg.hash(s)) && LastVerify(db.log, s) == verify
    requires cfg.verifier.Some? && ps != [] ==>
               verify.Some? && verify.value.Verify? && verify.value.sig == cfg.verifier && verify.value.props == Ids(ps)
    ensures Settled(db, cfg, s)
  {
    hide LastVerify, ExtractedHash, PropsOf;
    if ps != [] {
      assert Ids(ps)[0] in Ids(ps);
    }
  }

  lemma PersistedSettles(db: Db, start: Db, cfg: Config, env: Env, s: SpanId)
    requires Clean(env) && (Superseded(start, cfg, s) || PropsOf(db, s) == [])
    ensures Settled(ExtractedOne(start, db, cfg, env, s), cfg, s)
  {
    CleanVerdicts(cfg, env, s);
    var ds := Inferred(cfg, env, s);
    var vs := VerdictsFor(cfg, env, s, |ds|);
    hide PropsOf, Persisted, Minted, Ids, LastExtract, LastVerify, RowsOf, Clean, VerdictsFor, Superseded, Settled;
    var purge := Superseded(start, cfg, s);
    PersistedIs(db, s, cfg.hash(s), ds, cfg.verifier, vs, cfg.quality(s), purge);
    var ps := Minted(db.nextId, ds, vs, cfg.quality(s));
    var extract := Extract(s, cfg.hash(s), Ids(ps), if purge then Ids(PropsOf(db, s)) else [], None, None);
    var db' := ExtractedOne(start, db, cfg, env, s);
    LogAppend(db.log, extract, s);
    if cfg.verifier.Some? && ds != [] {
      LogAppend(db.log + [extract], VerifyAction(s, cfg.verifier.value, ps, vs), s);
    }
    SettledBy(db', cfg, s, ps, LastVerify(db'.log, s));
  }

  lemma {:induction false} ExtractedSettles(start: Db, cfg: Config, env: Env, pending: seq<SpanId>, s: SpanId)
    requires Sound(start, cfg.quality) && Clean(env) && Distinct(pending) && s in pending
    requires forall t :: t in pending ==> Owed(start, cfg, t)
    ensures Settled(Extracted(start, cfg, env, pending), cfg, s)
  {
    hide Distinct, Settled, Persisted, SpanSound;
    var front, last := pending[..|pending| - 1], pending[|pending| - 1];
    assert pending == front + [last];
    DistinctFront(front, last);
    var db := Extracted(start, cfg, env, front);
    if s == last {
      ExtractedTouchesPending(start, cfg, env, front, s);
      assert SpanSound(start, s, cfg.quality(s));
      NeverExtractedIsEmpty(start, s, cfg.quality(s));
      PersistedSettles(db, start, cfg, env, s);
    } else {
      ExtractedSettles(start, cfg, env, front, s);
      assert Commits(env, last);
      var ds := Inferred(cfg, env, last);
      PersistTouchesOne(db, last, cfg.hash(last), ds, cfg.verifier, VerdictsFor(cfg, env, last, |ds|), cfg.quality(last),
                        Superseded(start, cfg, last), s);
      SettledUntouched(db, ExtractedOne(start, db, cfg, env, last), cfg, s);
    }
  }

  lemma NeverExtractedIsEmpty(db: Db, s: SpanId, quality: real)
    requires SpanSound(db, s, quality)
    ensures ExtractedHash(db, s).None? ==> PropsOf(db, s) == []
  {
  }

  lemma SettledUntouched(db: Db, db': Db, cfg: Config, s: SpanId)
    requires Settled(db, cfg, s) && Untouched(db, db', s)
    ensures Settled(db', cfg, s)
  {
  }

  lemma BackfilledOneSettles(db: Db, cfg: Config, env: Env, s: SpanId)
    requires Clean(env) && !Owed(db, cfg, s)
    ensures Settled(BackfilledOne(db, cfg, env, s), cfg, s)
  {
    var db' := BackfilledOne(db, cfg, env, s);
    var ps := PropsOf(db, s);
    if db' != db {
      var vs := Reverdicts(env, s, |ps|);
      var scored := Rescored(ps, vs, cfg.quality(s));
      var verify := VerifyAction(s, cfg.verifier.value, scored, vs);
      LogAppend(db.log, verify, s);
      assert db'.log == db.log + [verify] && PropsOf(db', s) == scored;
      assert None !in vs;
      assert Ids(scored)[0] in Ids(scored);
    }
  }

  lemma {:induction false} BackfilledSettles(db: Db, cfg: Config, env: Env, spans: seq<SpanId>, s: SpanId)
    requires Clean(env) && Distinct(spans) && s in spans && !Owed(db, cfg, s)
    ensures Settled(Backfilled(db, cfg, env, spans), cfg, s)
  {
    hide Distinct, Settled, Reverified, SpanVerifyIdentity;
    var front, last := spans[..|spans| - 1], spans[|spans| - 1];
    assert spans == front + [last];
    DistinctFront(front, last);
    var mid := Backfilled(db, cfg, env, front);
    BackfillKeepsExtracts(db, cfg, env, front, s);
    if s == last {
      BackfilledOneSettles(mid, cfg, env, s);
    } else {
      BackfilledSettles(db, cfg, env, front, s);
      if BackfilledOne(mid, cfg, env, last) != mid {
        ReverifyTouchesOne(mid, last, cfg.verifier.value, Reverdicts(env, last, |PropsOf(mid, last)|), cfg.quality(last), s);
        SettledUntouched(mid, BackfilledOne(mid, cfg, env, last), cfg, s);
      }
    }
  }

  lemma {:induction false} ReplayedIsCurrent(start: Db, db: Db, cfg: Config, env: Env, toReplay: seq<SpanId>, s: SpanId)
    requires Distinct(toReplay) && s in toReplay && ReplayCommits(env, s)
    requires forall t :: t in toReplay ==> Reuse(start, cfg, t).Some?
    ensures !Owed(ReplayedAll(start, db, cfg, env, toReplay), cfg, s)
  {
    hide Distinct, Replayed, Reuse, LastExtract;
    var front, last := toReplay[..|toReplay| - 1], toReplay[|toReplay| - 1];
    assert toReplay == front + [last];
    DistinctFront(front, last);
    var mid := ReplayedAll(start, db, cfg, env, front);
    if s == last {
      var r := Reuse(start, cfg, s).value;
      ReplayedIs(mid, s, cfg.hash(s), r, cfg.verifier, Superseded(start, cfg, s));
      LogAppend(mid.log, ReplayedOne(start, mid, cfg, env, s).log[|mid.log|], s);
    } else {
      ReplayedIsCurrent(start, db, cfg, env, front, s);
      if ReplayedOne(start, mid, cfg, env, last) != mid {
        ReplayTouchesOne(mid, last, cfg.hash(last), Reuse(start, cfg, last).value, cfg.verifier,
                         Superseded(start, cfg, last), s);
      }
    }
  }

  /** Once everything owed was inferred or replayed without a failure, nothing is owed. */
  lemma WrittenIsCurrent(db: Db, cfg: Config, env: Env, spans: seq<SpanId>, s: SpanId)
    requires Sound(db, cfg.quality) && Clean(env) && Distinct(spans) && s in spans
    ensures !Owed(Written(db, cfg, env, spans), cfg, s)
  {
    assert ReplayCommits(env, s) && Commits(env, s);
    PendingIs(db, cfg, spans);
    hide Sound, Distinct, Extracted, ReplayedAll, Reuse, Commits, ReplayCommits, Clean;
    var mid := Extracted(db, cfg, env, Pending(db, cfg, spans));
    if s in ToReplay(db, cfg, spans) {
      ReplayedIsCurrent(db, mid, cfg, env, ToReplay(db, cfg, spans), s);
    } else {
      if s in Pending(db, cfg, spans) {
        ExtractedSettles(db, cfg, env, Pending(db, cfg, spans), s);
      } else {
        ExtractedTouchesPending(db, cfg, env, Pending(db, cfg, spans), s);
      }
      ReplayedTouches(db, mid, cfg, env, ToReplay(db, cfg, spans), s);
    }
  }

  /** After a clean run every span of the document is settled. */
  lemma CleanRunSettles(db: Db, cfg: Config, env: Env, spans: seq<SpanId>, s: SpanId)
    requires Sound(db, cfg.quality) && Clean(env) && Distinct(spans) && s in spans
    requires FirstRefusal(db, cfg, env, spans) == Allowed
    ensures Settled(Ran(db, cfg, env, spans), cfg, s)
  {
    hide Sound, Clean, Distinct, Written, Backfilled, FirstRefusal, Owed;
    WrittenIsCurrent(db, cfg, env, spans, s);
    BackfilledSettles(Written(db, cfg, env, spans), cfg, env, spans, s);
  }

  /** Repeating a clean run on unchanged inputs writes nothing, whatever fails the second time. */
  lemma RepeatedRunWritesNothing(db: Db, cfg: Config, env: Env, again: Env, spans: seq<SpanId>)
    requires Sound(db, cfg.quality) && Clean(env) && Distinct(spans)
    requires FirstRefusal(db, cfg, env, spans) == Allowed
    ensures Ran(Ran(db, cfg, env, spans), cfg, again, spans) == Ran(db, cfg, env, spans)
  {
    hide Sound, Clean, Distinct, Ran, FirstRefusal;
    forall s | s in spans
      ensures Settled(Ran(db, cfg, env, spans), cfg, s)
    {
      CleanRunSettles(db, cfg, env, spans, s);
    }
    SettledRunWritesNothing(Ran(db, cfg, env, spans), cfg, again, spans);
  }
}
