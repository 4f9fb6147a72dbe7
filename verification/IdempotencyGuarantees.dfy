/**
 * The atomic store's guarantees, carried over to every interleaving of the
 * Postgres statements by the refinement.
 */
module IdempotencyGuarantees {
  import opened Options
  import opened IdempotencyProtocol
  import opened IdempotencyFencing
  import opened IdempotencyAnswers
  import opened IdempotencySql
  import opened IdempotencyInterleaving

  /** Only a statement of the call itself can make it answer, and that statement takes effect. */
  lemma OnlyOwnStatementAnswers(cfg: Config, db: Db, l: Label, n: nat)
    requires CanRun(db, l) && n in db.calls && Running(db.calls[n])
    requires n in After(cfg, db, l).calls && After(cfg, db, l).calls[n].pc.Answered?
    ensures Effect(cfg, db, l) == Some(TryClaim(db.calls[n].request, db.calls[n].claimId))
    ensures Reply(cfg, db, l) == ClaimAnswer(After(cfg, db, l).calls[n].pc.result)
  {
    hide AfterInsert, AfterTakeover, AfterComplete, AfterRelease, ExpiredSlots, ResultOfRead, Holds;
  }

  /** The answer a call ends with is the atomic claim made at that very statement. */
  lemma AnswerTakesEffect(cfg: Config, run: Run, k: nat, n: nat)
    requires IsRun(cfg, run) && k < |run.labels|
    requires n in run.dbs[k].calls && Running(run.dbs[k].calls[n])
    requires n in run.dbs[k + 1].calls && run.dbs[k + 1].calls[n].pc.Answered?
    ensures var h, c := HistoryOf(cfg, run, k + 1), run.dbs[k].calls[n];
      && h.entries != []
      && h.entries[|h.entries| - 1]
         == Entry(TryClaim(c.request, c.claimId), ClaimAnswer(run.dbs[k + 1].calls[n].pc.result))
  {
    hide Effect, Reply, After, StoreOf;
    assert RunStep(cfg, run, k);
    OnlyOwnStatementAnswers(cfg, run.dbs[k], run.labels[k], n);
  }

  /**
   * Whatever the interleaving, two grants of one key are a release or
   * min(lease, retention) apart, and no key is granted within retention of a
   * completion.
   */
  lemma InterleavedSingleExecution(cfg: Config, run: Run, i: nat, j: nat, scope: string, key: string)
    requires cfg.Valid() && IsRun(cfg, run)
    requires var h := HistoryOf(cfg, run, |run.labels|);
      i < j < |h.entries| && GrantedAt(h, j, scope, key)
    ensures var h := HistoryOf(cfg, run, |run.labels|);
      && (GrantedAt(h, i, scope, key) ==>
            || h.stores[j].now >= h.stores[i].now + cfg.Hold()
            || (exists m :: i < m < j && ReleasedAt(h, m, scope, key)))
      && (CompletedAt(h, i, scope, key) ==> h.stores[j].now >= h.stores[i].now + cfg.retention)
  {
    var h := HistoryOf(cfg, run, |run.labels|);
    RunRefinesStore(cfg, run, |run.labels|);
    if GrantedAt(h, i, scope, key) {
      GrantsAreSeparated(cfg, h, i, j, scope, key);
    } else if CompletedAt(h, i, scope, key) {
      NoGrantWithinRetention(cfg, h, i, j, scope, key);
    }
  }

  /** Whatever the interleaving, each answer a claim gives follows from its key's grants, completions and releases. */
  lemma InterleavedClaimAnswerIs(cfg: Config, run: Run, n: nat) returns (granted: Option<nat>, done: Option<nat>)
    requires cfg.Valid() && IsRun(cfg, run)
    requires var h := HistoryOf(cfg, run, |run.labels|); n < |h.entries| && h.entries[n].op.TryClaim?
    ensures var h := HistoryOf(cfg, run, |run.labels|);
      var request := h.entries[n].op.request;
      && LatestGrant(h, n, request.scope, request.key, granted)
      && (granted.None? ==> done.None?)
      && (granted.Some? ==> LatestCompletion(h, n, request.scope, request.key, granted.value, done))
      && h.entries[n].answer == ClaimAnswer(AnswerBy(cfg, h, n, granted, done))
  {
    hide Legal, LatestGrant, LatestCompletion, AnswerBy;
    RunRefinesStore(cfg, run, |run.labels|);
    granted, done := ClaimAnswerIs(cfg, HistoryOf(cfg, run, |run.labels|), n);
  }
}
