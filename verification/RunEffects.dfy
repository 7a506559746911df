/**
 What a run over a document may do to a span, in terms of the log and the settings alone:
 when src/iknos/core/proposition.py refuses the run, that a refused run writes nothing, and that no
 run pulls a proposition out from under a dependent. SpanContents.dfy says what a run writes.
 */
module RunEffects {
  import opened DerivationAdapter
  import opened PropositionLog
  import opened Proposition

  /** Entry `i` of the log is the newest extraction of the span. */
  ghost predicate NewestExtract(log: seq<Action>, s: SpanId, i: nat) {
    && i < |log| && log[i].Extract? && log[i].span == s
    && forall j :: i < j < |log| && log[j].Extract? ==> log[j].span != s
  }

  /** The span was last extracted under another content hash than the present one. */
  ghost predicate Outdated(log: seq<Action>, s: SpanId, present: Hash) {
    exists i: nat :: NewestExtract(log, s, i) && log[i].hash != present
  }

  /** The span stands in the way: it is outdated, and must not or may not be extracted again. */
  ghost predicate Blocks(db: Db, cfg: Config, env: Env, s: SpanId) {
    Outdated(db.log, s, cfg.hash(s)) && (!cfg.cascade || env.dependents(s))
  }

  lemma {:induction false} NewestIsLast(log: seq<Action>, s: SpanId, i: nat)
    requires NewestExtract(log, s, i)
    ensures LastExtract(log, s) == Some(log[i])
  {
    if i < |log| - 1 {
      NewestIsLast(log[..|log| - 1], s, i);
    }
  }

  lemma {:induction false} LastIsNewest(log: seq<Action>, s: SpanId) returns (i: nat)
    requires LastExtract(log, s).Some?
    ensures NewestExtract(log, s, i)
  {
    var n := |log| - 1;
    if log[n].Extract? && log[n].span == s {
      i := n;
    } else {
      i := LastIsNewest(log[..n], s);
    }
  }

  lemma SupersededIsOutdated(db: Db, cfg: Config, s: SpanId)
    ensures Superseded(db, cfg, s) <==> Outdated(db.log, s, cfg.hash(s))
  {
    if Superseded(db, cfg, s) {
      var i := LastIsNewest(db.log, s);
      NewestIsLast(db.log, s, i);
    }
    if Outdated(db.log, s, cfg.hash(s)) {
      var i: nat :| NewestExtract(db.log, s, i) && db.log[i].hash != cfg.hash(s);
      NewestIsLast(db.log, s, i);
    }
  }

  lemma RefusedAt(db: Db, cfg: Config, env: Env, s: SpanId)
    ensures RefusalAt(db, cfg, env, s) != Allowed <==> Blocks(db, cfg, env, s)
    ensures RefusalAt(db, cfg, env, s)
         == if !Blocks(db, cfg, env, s) then Allowed else if cfg.cascade then CascadeDependents(s) else StaleExtraction(s)
  {
    SupersededIsOutdated(db, cfg, s);
  }

  /** A run over the spans is refused exactly when one of them stands in the way, by the first that does. */
  lemma {:induction false} RefusingSpanIs(db: Db, cfg: Config, env: Env, spans: seq<SpanId>)
    ensures var why := RefusingSpan(db, cfg, env, spans);
            && (why == Allowed <==> forall s :: s in spans ==> !Blocks(db, cfg, env, s))
            && (why != Allowed ==>
                  exists i :: 0 <= i < |spans| && Blocks(db, cfg, env, spans[i])
                           && (forall j :: 0 <= j < i ==> !Blocks(db, cfg, env, spans[j]))
                           && why == if cfg.cascade then CascadeDependents(spans[i]) else StaleExtraction(spans[i]))
  {
    hide Blocks, RefusalAt;
    if spans != [] {
      var front, s := spans[..|spans| - 1], spans[|spans| - 1];
      assert spans == front + [s];
      RefusingSpanIs(db, cfg, env, front);
      RefusedAt(db, cfg, env, s);
    }
  }

  /** The stored vectors are of another model than the run's. */
  ghost predicate Mismatched(cfg: Config, env: Env) {
    env.vectors.Some? && env.vectors.value != cfg.space
  }

  /** A run is refused exactly when the vectors mismatch or a span stands in the way, and then it
      leaves the store as it was. */
  lemma RefusedExactlyWhen(db: Db, cfg: Config, env: Env, spans: seq<SpanId>)
    ensures FirstRefusal(db, cfg, env, spans) != Allowed
       <==> Mismatched(cfg, env) || exists s :: s in spans && Blocks(db, cfg, env, s)
    ensures Mismatched(cfg, env) || (exists s :: s in spans && Blocks(db, cfg, env, s)) ==> Ran(db, cfg, env, spans) == db
    ensures FirstRefusal(db, cfg, env, spans).EmbeddingModelMismatch? <==> Mismatched(cfg, env)
  {
    hide Blocks, RefusingSpan, Written, Backfilled;
    RefusingSpanIs(db, cfg, env, spans);
  }

  // ---------------------------------------------------------------- nothing is pulled from under a dependent

  /** The run may not supersede the span's propositions. */
  ghost predicate Protected(cfg: Config, env: Env, s: SpanId) {
    !cfg.cascade || env.dependents(s)
  }

  ghost predicate Extends(ps: seq<Prop>, ps': seq<Prop>) {
    |ps| <= |ps'| && forall i :: 0 <= i < |ps| ==> ps'[i].id == ps[i].id
  }

  lemma SameIdsExtend(ps: seq<Prop>, ps': seq<Prop>)
    requires Ids(ps) == Ids(ps')
    ensures Extends(ps, ps')
  {
    forall i | 0 <= i < |ps|
      ensures ps'[i].id == ps[i].id
    {
      assert Ids(ps)[i] == ps[i].id && Ids(ps')[i] == ps'[i].id;
    }
  }

  lemma {:induction false} ExtractedExtends(start: Db, cfg: Config, env: Env, pending: seq<SpanId>, s: SpanId)
    requires s in pending ==> !Superseded(start, cfg, s)
    ensures Extends(PropsOf(start, s), PropsOf(Extracted(start, cfg, env, pending), s))
  {
    hide Superseded, Persisted, PropsOf, Minted;
    if pending != [] {
      var front, t := pending[..|pending| - 1], pending[|pending| - 1];
      assert pending == front + [t];
      ExtractedExtends(start, cfg, env, front, s);
      if Commits(env, t) {
        var db, ds := Extracted(start, cfg, env, front), Inferred(cfg, env, t);
        PersistedIs(db, t, cfg.hash(t), ds, cfg.verifier, VerdictsFor(cfg, env, t, |ds|), cfg.quality(t),
                    Superseded(start, cfg, t));
      }
    }
  }

  lemma {:induction false} ReplayedExtends(start: Db, db: Db, cfg: Config, env: Env, toReplay: seq<SpanId>, s: SpanId)
    requires s in toReplay ==> !Superseded(start, cfg, s)
    ensures Extends(PropsOf(db, s), PropsOf(ReplayedAll(start, db, cfg, env, toReplay), s))
  {
    hide Superseded, Replayed, PropsOf, Copies, Reuse;
    if toReplay != [] {
      var front, t := toReplay[..|toReplay| - 1], toReplay[|toReplay| - 1];
      assert toReplay == front + [t];
      ReplayedExtends(start, db, cfg, env, front, s);
      var mid, r := ReplayedAll(start, db, cfg, env, front), Reuse(start, cfg, t);
      if r.Some? && ReplayCommits(env, t) {
        ReplayedIs(mid, t, cfg.hash(t), r.value, cfg.verifier, Superseded(start, cfg, t));
      }
    }
  }

  lemma {:induction false} SpansOnly(db: Db, cfg: Config, spans: seq<SpanId>, s: SpanId)
    ensures s in Pending(db, cfg, spans) || s in ToReplay(db, cfg, spans) ==> s in spans
  {
    hide Owed, Reuse;
    if spans != [] {
      var front, last := spans[..|spans| - 1], spans[|spans| - 1];
      assert spans == front + [last];
      SpansOnly(db, cfg, front, s);
    }
  }

  lemma ExtendsTransitive(a: seq<Prop>, b: seq<Prop>, c: seq<Prop>)
    requires Extends(a, b) && Extends(b, c)
    ensures Extends(a, c)
  {
  }

  /** A run keeps every proposition of a protected span, and their order. */
  lemma RunKeepsProtected(db: Db, cfg: Config, env: Env, spans: seq<SpanId>, s: SpanId)
    requires Protected(cfg, env, s)
    ensures Extends(PropsOf(db, s), PropsOf(Ran(db, cfg, env, spans), s))
  {
    hide Written, Backfilled, PropsOf;
    if Ran(db, cfg, env, spans) != db {
      RefusedExactlyWhen(db, cfg, env, spans);
      hide FirstRefusal;
      SpansOnly(db, cfg, spans, s);
      SupersededIsOutdated(db, cfg, s);
      hide Superseded, Outdated;
      WrittenExtends(db, cfg, env, spans, s);
      BackfillKeepsExtracts(Written(db, cfg, env, spans), cfg, env, spans, s);
      hide Extends;
      SameIdsExtend(PropsOf(Written(db, cfg, env, spans), s), PropsOf(Ran(db, cfg, env, spans), s));
      ExtendsTransitive(PropsOf(db, s), PropsOf(Written(db, cfg, env, spans), s), PropsOf(Ran(db, cfg, env, spans), s));
    } else {
      SameIdsExtend(PropsOf(db, s), PropsOf(db, s));
    }
  }

  lemma WrittenExtends(db: Db, cfg: Config, env: Env, spans: seq<SpanId>, s: SpanId)
    requires s in Pending(db, cfg, spans) || s in ToReplay(db, cfg, spans) ==> !Superseded(db, cfg, s)
    ensures Extends(PropsOf(db, s), PropsOf(Written(db, cfg, env, spans), s))
  {
    hide Superseded, PropsOf, Pending, ToReplay, Extracted, ReplayedAll, Extends;
    var mid := Extracted(db, cfg, env, Pending(db, cfg, spans));
    ExtractedExtends(db, cfg, env, Pending(db, cfg, spans), s);
    ReplayedExtends(db, mid, cfg, env, ToReplay(db, cfg, spans), s);
    ExtendsTransitive(PropsOf(db, s), PropsOf(mid, s), PropsOf(Written(db, cfg, env, spans), s));
  }

  /** Over every history from any store: as long as each run finds the span with dependents or has
      cascading off, none of its propositions ever leaves. */
  lemma {:induction false} HistoryKeepsProtected(db: Db, runs: seq<Run>, quality: SpanId -> real, s: SpanId)
    requires forall i :: 0 <= i < |runs| ==> !runs[i].cascade || runs[i].env.dependents(s)
    ensures Extends(PropsOf(db, s), PropsOf(RanAll(db, runs, quality), s))
  {
    hide Ran, PropsOf;
    if runs != [] {
      var r, before := runs[|runs| - 1], RanAll(db, runs[..|runs| - 1], quality);
      HistoryKeepsProtected(db, runs[..|runs| - 1], quality, s);
      RunKeepsProtected(before, SettingsOf(r, quality), r.env, r.spans, s);
    }
  }
}
