/**
 The embedding-model guard of src/iknos/core/proposition.py (line 664): before a run it looks at one
 stored vector of the document, whichever the query meets, and refuses to mix models.

 `RunKeepsOneSpace` and `EveryHistoryKeepsOneSpace` are what that one look buys: the vectors of a
 document always stem from one model, whatever is inferred, replayed from other documents,
 re-verified or rolled back.
 */
module EmbeddingSpace {
  import opened Sets
  import opened DerivationAdapter
  import opened PropositionLog
  import opened Proposition

  datatype DocId = DocId(tag: int)

  ghost predicate AllIn(ps: seq<Prop>, space: Space) {
    forall i :: 0 <= i < |ps| ==> ps[i].space == space
  }

  /** Every vector of the document stems from this model. */
  ghost predicate InSpace(db: Db, document: SpanId -> DocId, doc: DocId, space: Space) {
    forall s :: document(s) == doc ==> AllIn(PropsOf(db, s), space)
  }

  /** No document mixes vectors of two models. */
  ghost predicate OneSpaceEach(db: Db, document: SpanId -> DocId) {
    forall doc {:trigger Mixes(db, document, doc)} :: !Mixes(db, document, doc)
  }

  ghost predicate Mixes(db: Db, document: SpanId -> DocId, doc: DocId) {
    exists s, t, i, j :: document(s) == document(t) == doc && 0 <= i < |PropsOf(db, s)| && 0 <= j < |PropsOf(db, t)|
                      && PropsOf(db, s)[i].space != PropsOf(db, t)[j].space
  }

  /** The guard's query answers with the model of some vector of the document, if it has one. */
  ghost predicate Answers(db: Db, document: SpanId -> DocId, doc: DocId, vectors: Option<Space>) {
    if vectors.Some? then
      exists s, i :: document(s) == doc && 0 <= i < |PropsOf(db, s)| && PropsOf(db, s)[i].space == vectors.value
    else
      forall s :: document(s) == doc ==> PropsOf(db, s) == []
  }

  // ---------------------------------------------------------------- what a transaction writes

  lemma MintedIn(nextId: nat, drafts: seq<Draft>, verdicts: seq<Option<Verdict>>, quality: real, space: Space)
    requires |verdicts| == |drafts| && forall i :: 0 <= i < |drafts| ==> drafts[i].space == space
    ensures AllIn(Minted(nextId, drafts, verdicts, quality), space)
  {
    hide Faithfulness, ReasonsFor;
  }

  lemma RescoredIn(ps: seq<Prop>, verdicts: seq<Option<Verdict>>, quality: real, space: Space)
    requires |verdicts| == |ps| && AllIn(ps, space)
    ensures AllIn(Rescored(ps, verdicts, quality), space)
  {
    hide Faithfulness, Reassess;
  }

  lemma CopiesIn(nextId: nat, r: Reusable, present: Option<Sig>, space: Space)
    requires AllIn(r.props, space)
    ensures AllIn(Copies(nextId, r, present), space)
  {
  }

  lemma ExtractedOneIn(start: Db, db: Db, cfg: Config, env: Env, s: SpanId, t: SpanId)
    requires AllIn(PropsOf(db, t), cfg.space)
    ensures AllIn(PropsOf(ExtractedOne(start, db, cfg, env, s), t), cfg.space)
  {
    if Commits(env, s) {
      var ds := Inferred(cfg, env, s);
      var vs := VerdictsFor(cfg, env, s, |ds|);
      var purge := Superseded(start, cfg, s);
      PersistedIs(db, s, cfg.hash(s), ds, cfg.verifier, vs, cfg.quality(s), purge);
      MintedIn(db.nextId, ds, vs, cfg.quality(s), cfg.space);
      hide Persisted, Minted, PropsOf, Superseded, VerdictsFor, VerifyAction;
    }
  }

  lemma ReplayedOneIn(start: Db, db: Db, cfg: Config, env: Env, s: SpanId, t: SpanId)
    requires AllIn(PropsOf(db, t), cfg.space)
    ensures AllIn(PropsOf(ReplayedOne(start, db, cfg, env, s), t), cfg.space)
  {
    var r := Reuse(start, cfg, s);
    if r.Some? && ReplayCommits(env, s) {
      ReplayedIs(db, s, cfg.hash(s), r.value, cfg.verifier, Superseded(start, cfg, s));
      CopiesIn(db.nextId, r.value, cfg.verifier, cfg.space);
      hide Replayed, Copies, PropsOf, Superseded, Reuse;
    }
  }

  lemma BackfilledOneIn(db: Db, cfg: Config, env: Env, s: SpanId, t: SpanId)
    requires AllIn(PropsOf(db, t), cfg.space)
    ensures AllIn(PropsOf(BackfilledOne(db, cfg, env, s), t), cfg.space)
  {
    if s == t {
      RescoredIn(PropsOf(db, s), Reverdicts(env, s, |PropsOf(db, s)|), cfg.quality(s), cfg.space);
    }
    hide Rescored, Reverdicts, SpanVerifyIdentity;
  }

  // ---------------------------------------------------------------- what a run writes

  lemma {:induction false} ExtractedIn(start: Db, cfg: Config, env: Env, pending: seq<SpanId>, t: SpanId)
    requires AllIn(PropsOf(start, t), cfg.space)
    ensures AllIn(PropsOf(Extracted(start, cfg, env, pending), t), cfg.space)
  {
    hide ExtractedOne, PropsOf, AllIn;
    if pending != [] {
      var front, s := pending[..|pending| - 1], pending[|pending| - 1];
      ExtractedIn(start, cfg, env, front, t);
      ExtractedOneIn(start, Extracted(start, cfg, env, front), cfg, env, s, t);
    }
  }

  lemma {:induction false} ReplayedIn(start: Db, db: Db, cfg: Config, env: Env, toReplay: seq<SpanId>, t: SpanId)
    requires AllIn(PropsOf(db, t), cfg.space)
    ensures AllIn(PropsOf(ReplayedAll(start, db, cfg, env, toReplay), t), cfg.space)
  {
    hide ReplayedOne, PropsOf, AllIn;
    if toReplay != [] {
      var front, s := toReplay[..|toReplay| - 1], toReplay[|toReplay| - 1];
      ReplayedIn(start, db, cfg, env, front, t);
      ReplayedOneIn(start, ReplayedAll(start, db, cfg, env, front), cfg, env, s, t);
    }
  }

  lemma {:induction false} BackfilledIn(db: Db, cfg: Config, env: Env, spans: seq<SpanId>, t: SpanId)
    requires AllIn(PropsOf(db, t), cfg.space)
    ensures AllIn(PropsOf(Backfilled(db, cfg, env, spans), t), cfg.space)
  {
    hide BackfilledOne, PropsOf, AllIn;
    if spans != [] {
      var front, s := spans[..|spans| - 1], spans[|spans| - 1];
      BackfilledIn(db, cfg, env, front, t);
      BackfilledOneIn(Backfilled(db, cfg, env, front), cfg, env, s, t);
    }
  }

  lemma RunIn(db: Db, cfg: Config, env: Env, spans: seq<SpanId>, t: SpanId)
    requires AllIn(PropsOf(db, t), cfg.space)
    ensures AllIn(PropsOf(Ran(db, cfg, env, spans), t), cfg.space)
  {
    hide AllIn, PropsOf, Extracted, ReplayedAll, Backfilled, Pending, ToReplay, FirstRefusal;
    var mid := Extracted(db, cfg, env, Pending(db, cfg, spans));
    ExtractedIn(db, cfg, env, Pending(db, cfg, spans), t);
    ReplayedIn(db, mid, cfg, env, ToReplay(db, cfg, spans), t);
    BackfilledIn(Written(db, cfg, env, spans), cfg, env, spans, t);
  }

  /** What the guard lets pass is in the run's space already. */
  lemma GuardMeans(db: Db, document: SpanId -> DocId, doc: DocId, cfg: Config, env: Env, spans: seq<SpanId>)
    requires !Mixes(db, document, doc) && Answers(db, document, doc, env.vectors)
    requires FirstRefusal(db, cfg, env, spans) == Allowed
    ensures InSpace(db, document, doc, cfg.space)
  {
    hide PropsOf, RefusingSpan;
    if env.vectors.Some? {
      var s, i :| document(s) == doc && 0 <= i < |PropsOf(db, s)| && PropsOf(db, s)[i].space == env.vectors.value;
      forall t, j | document(t) == doc && 0 <= j < |PropsOf(db, t)|
        ensures PropsOf(db, t)[j].space == cfg.space
      {
      }
    }
  }

  /** A run over one document's spans mixes no models, in that document or another. */
  lemma RunKeepsOneSpace(db: Db, document: SpanId -> DocId, doc: DocId, cfg: Config, env: Env, spans: seq<SpanId>)
    requires OneSpaceEach(db, document) && Answers(db, document, doc, env.vectors)
    requires Distinct(spans) && forall s :: s in spans ==> document(s) == doc
    ensures OneSpaceEach(Ran(db, cfg, env, spans), document)
  {
    hide PropsOf, Distinct, Answers, Mixes;
    var db' := Ran(db, cfg, env, spans);
    forall d
      ensures !Mixes(db', document, d)
    {
      assert !Mixes(db, document, d);
      if FirstRefusal(db, cfg, env, spans) == Allowed {
        hide Ran, FirstRefusal;
        if d == doc {
          GuardMeans(db, document, doc, cfg, env, spans);
          forall t | document(t) == doc
            ensures AllIn(PropsOf(db', t), cfg.space)
          {
            RunIn(db, cfg, env, spans, t);
          }
          OneModelDoesNotMix(db', document, doc, cfg.space);
        } else {
          forall t | document(t) == d
            ensures PropsOf(db', t) == PropsOf(db, t)
          {
            RunTouchesItsSpans(db, cfg, env, spans, t);
          }
          SamePropsMixAlike(db, db', document, d);
        }
      }
    }
  }

  lemma OneModelDoesNotMix(db: Db, document: SpanId -> DocId, doc: DocId, space: Space)
    requires InSpace(db, document, doc, space)
    ensures !Mixes(db, document, doc)
  {
    hide PropsOf;
  }

  lemma SamePropsMixAlike(db: Db, db': Db, document: SpanId -> DocId, doc: DocId)
    requires forall t :: document(t) == doc ==> PropsOf(db', t) == PropsOf(db, t)
    ensures Mixes(db', document, doc) ==> Mixes(db, document, doc)
  {
    hide PropsOf;
  }

  /** Each run covers spans of one document, and its guard is answered from the store as it stands. */
  ghost predicate Guarded(runs: seq<Run>, docs: seq<DocId>, document: SpanId -> DocId, quality: SpanId -> real) {
    && |docs| == |runs|
    && forall i :: 0 <= i < |runs| ==>
         Distinct(runs[i].spans) && (forall s :: s in runs[i].spans ==> document(s) == docs[i])
         && Answers(RanAll(Db([], map[], 0), runs[..i], quality), document, docs[i], runs[i].env.vectors)
  }

  /** Over every history no document mixes vectors of two models. */
  lemma {:induction false} EveryHistoryKeepsOneSpace(runs: seq<Run>, docs: seq<DocId>, document: SpanId -> DocId,
                                                     quality: SpanId -> real)
    requires Guarded(runs, docs, document, quality)
    ensures OneSpaceEach(RanAll(Db([], map[], 0), runs, quality), document)
  {
    hide Ran, Answers, OneSpaceEach;
    if runs == [] {
      NothingMixes(document);
    } else {
      var n := |runs| - 1;
      var r := runs[n];
      assert forall i :: 0 <= i < n ==> runs[..n][..i] == runs[..i];
      EveryHistoryKeepsOneSpace(runs[..n], docs[..n], document, quality);
      RunKeepsOneSpace(RanAll(Db([], map[], 0), runs[..n], quality), document, docs[n],
                       SettingsOf(r, quality), r.env, r.spans);
    }
  }

  lemma NothingMixes(document: SpanId -> DocId)
    ensures OneSpaceEach(Db([], map[], 0), document)
  {
  }
}
