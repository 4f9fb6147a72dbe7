/**
 * What every claim is answered, from what happened to its key before: which
 * operations came, what they were answered, and when.
 */
module IdempotencyAnswers {
  import opened Options
  import opened IdempotencyProtocol
  import opened IdempotencyFencing

  /** The latest grant of the key in the first `n` steps, if any. */
  ghost predicate LatestGrant(h: History, n: nat, scope: string, key: string, granted: Option<nat>)
    requires n <= |h.entries|
  {
    match granted
    case None => forall m :: 0 <= m < n ==> !GrantedAt(h, m, scope, key)
    case Some(g) =>
      && g < n && GrantedAt(h, g, scope, key)
      && forall m :: g < m < n ==> !GrantedAt(h, m, scope, key)
  }

  /** The latest completion of the key after step `g`, if any. */
  ghost predicate LatestCompletion(h: History, n: nat, scope: string, key: string, g: nat, done: Option<nat>)
    requires n <= |h.entries|
  {
    match done
    case None => forall m :: g < m < n ==> !CompletedAt(h, m, scope, key)
    case Some(d) =>
      && g < d < n && CompletedAt(h, d, scope, key)
      && forall m :: d < m < n ==> !CompletedAt(h, m, scope, key)
  }

  ghost predicate ReleasedSince(h: History, n: nat, scope: string, key: string, g: nat)
    requires n <= |h.entries|
  {
    exists m :: g < m < n && ReleasedAt(h, m, scope, key)
  }

  /** The moment the key's record expires: retention after its completion, or after its grant. */
  function ExpiryOf(cfg: Config, h: History, g: nat, done: Option<nat>): Time
    requires g < |h.stores| && (done.Some? ==> done.value < |h.stores|)
  {
    (if done.Some? then h.stores[done.value].now else h.stores[g].now) + cfg.retention
  }

  /** The record a grant and perhaps its completion leave. */
  function RecordOf(cfg: Config, h: History, g: nat, done: Option<nat>): Record
    requires g < |h.entries| < |h.stores| && h.entries[g].op.TryClaim?
    requires done.Some? ==> done.value < |h.entries| && h.entries[done.value].op.Complete?
  {
    var op := h.entries[g].op;
    Record(op.newId, op.request.fingerprint, if done.Some? then Completed else InProgress,
           if done.Some? then Some(h.entries[done.value].op.response) else None,
           h.stores[g].now, ExpiryOf(cfg, h, g, done))
  }

  /** What the store holds for a key is a function of the key's history, until it may be purged. */
  ghost predicate HeldAsRecorded(
    cfg: Config, h: History, n: nat, scope: string, key: string, granted: Option<nat>, done: Option<nat>)
    requires |h.stores| == |h.entries| + 1 && n <= |h.entries|
    requires LatestGrant(h, n, scope, key, granted)
    requires granted.Some? ==> LatestCompletion(h, n, scope, key, granted.value, done)
  {
    var id, records := RecordKey(scope, key), h.stores[n].records;
    if granted.None? || ReleasedSince(h, n, scope, key, granted.value) then id !in records
    else if id in records then records[id] == RecordOf(cfg, h, granted.value, done)
    else h.stores[n].now >= ExpiryOf(cfg, h, granted.value, done)
  }

  lemma {:induction false} KeyHistory(cfg: Config, h: History, n: nat, scope: string, key: string)
    returns (granted: Option<nat>, done: Option<nat>)
    requires Legal(cfg, h) && n <= |h.entries|
    ensures LatestGrant(h, n, scope, key, granted)
    ensures granted.Some? ==> LatestCompletion(h, n, scope, key, granted.value, done)
    ensures HeldAsRecorded(cfg, h, n, scope, key, granted, done)
  {
    granted, done := None, None;
    if n > 0 {
      var m := n - 1;
      granted, done := KeyHistory(cfg, h, m, scope, key);
      assert StepAt(cfg, h, m);
      if GrantedAt(h, m, scope, key) {
        granted, done := Some(m), None;
        GrantIsHeld(cfg, h, m, scope, key);
      } else {
        if granted.Some? && CompletedAt(h, m, scope, key) {
          CompletionIsHeld(cfg, h, m, scope, key, granted.value, done);
          done := Some(m);
        } else if granted.Some? && ReleasedAt(h, m, scope, key) {
          ReleaseIsHeld(cfg, h, m, scope, key, granted.value, done);
        } else {
          RestIsHeld(cfg, h, m, scope, key, granted, done);
        }
      }
    }
  }

  lemma GrantIsHeld(cfg: Config, h: History, m: nat, scope: string, key: string)
    requires Legal(cfg, h) && m < |h.entries| && StepAt(cfg, h, m) && GrantedAt(h, m, scope, key)
    ensures HeldAsRecorded(cfg, h, m + 1, scope, key, Some(m), None)
  {
    hide RecordKey;
  }

  lemma CompletionIsHeld(cfg: Config, h: History, m: nat, scope: string, key: string, g: nat, done: Option<nat>)
    requires Legal(cfg, h) && m < |h.entries| && StepAt(cfg, h, m) && CompletedAt(h, m, scope, key)
    requires LatestGrant(h, m, scope, key, Some(g)) && LatestCompletion(h, m, scope, key, g, done)
    requires HeldAsRecorded(cfg, h, m, scope, key, Some(g), done)
    ensures LatestGrant(h, m + 1, scope, key, Some(g)) && LatestCompletion(h, m + 1, scope, key, g, Some(m))
    ensures HeldAsRecorded(cfg, h, m + 1, scope, key, Some(g), Some(m))
  {
    hide RecordKey;
    assert !ReleasedSince(h, m + 1, scope, key, g);
  }

  lemma ReleaseIsHeld(cfg: Config, h: History, m: nat, scope: string, key: string, g: nat, done: Option<nat>)
    requires Legal(cfg, h) && m < |h.entries| && StepAt(cfg, h, m) && ReleasedAt(h, m, scope, key)
    requires LatestGrant(h, m, scope, key, Some(g)) && LatestCompletion(h, m, scope, key, g, done)
    ensures LatestGrant(h, m + 1, scope, key, Some(g)) && LatestCompletion(h, m + 1, scope, key, g, done)
    ensures HeldAsRecorded(cfg, h, m + 1, scope, key, Some(g), done)
  {
    hide RecordKey;
  }

  /** Nothing that matters to the key happened, except perhaps a purge or the passage of time. */
  lemma RestIsHeld(
    cfg: Config, h: History, m: nat, scope: string, key: string, granted: Option<nat>, done: Option<nat>)
    requires Legal(cfg, h) && m < |h.entries| && StepAt(cfg, h, m) && !GrantedAt(h, m, scope, key)
    requires granted.Some? ==> !CompletedAt(h, m, scope, key) && !ReleasedAt(h, m, scope, key)
    requires LatestGrant(h, m, scope, key, granted)
    requires granted.Some? ==> LatestCompletion(h, m, scope, key, granted.value, done)
    requires HeldAsRecorded(cfg, h, m, scope, key, granted, done)
    ensures LatestGrant(h, m + 1, scope, key, granted)
    ensures granted.Some? ==> LatestCompletion(h, m + 1, scope, key, granted.value, done)
    ensures HeldAsRecorded(cfg, h, m + 1, scope, key, granted, done)
  {
    hide RecordKey;
    var op, id := h.entries[m].op, RecordKey(scope, key);
    if granted.Some? {
      assert ReleasedSince(h, m + 1, scope, key, granted.value) <==> ReleasedSince(h, m, scope, key, granted.value);
    }
    if op.TryClaim? {
      SameKey(Claim(op.request.scope, op.request.key, op.newId), scope, key);
    } else if op.Complete? || op.Release? {
      SameKey(op.claim, scope, key);
    }
  }

  // ---------------------------------------------------------------------------
  // Main result
  // ---------------------------------------------------------------------------

  /** The answer a claim gets, given the key's latest grant and completion. */
  ghost function AnswerBy(cfg: Config, h: History, n: nat, granted: Option<nat>, done: Option<nat>): ClaimResult
    requires |h.stores| == |h.entries| + 1 && n < |h.entries| && h.entries[n].op.TryClaim?
    requires granted.Some? ==> granted.value < n && h.entries[granted.value].op.TryClaim?
    requires done.Some? ==> done.value < n && h.entries[done.value].op.Complete?
  {
    var request, now := h.entries[n].op.request, h.stores[n].now;
    var free := Claimed(Claim(request.scope, request.key, h.entries[n].op.newId));
    if granted.None? || ReleasedSince(h, n, request.scope, request.key, granted.value) then free
    else if done.None? && now >= h.stores[granted.value].now + cfg.Hold() then free
    else if done.Some? && now >= h.stores[done.value].now + cfg.retention then free
    else if h.entries[granted.value].op.request.fingerprint != request.fingerprint then Mismatch
    else if done.Some? then Replay(h.entries[done.value].op.response)
    else StillRunning
  }

  /**
   * In every run a claim is granted exactly when its key was never granted, or
   * was released since, or the hold of an unfinished grant or the retention of a
   * completion is over. Otherwise another request's fingerprint is a mismatch;
   * the same request is answered with the latest completion's response if there
   * is one since the grant, and that it is still running if there is none.
   */
  lemma ClaimAnswerIs(cfg: Config, h: History, n: nat) returns (granted: Option<nat>, done: Option<nat>)
    requires cfg.Valid() && Legal(cfg, h) && n < |h.entries| && h.entries[n].op.TryClaim?
    ensures var request := h.entries[n].op.request;
      && LatestGrant(h, n, request.scope, request.key, granted)
      && (granted.None? ==> done.None?)
      && (granted.Some? ==> LatestCompletion(h, n, request.scope, request.key, granted.value, done))
      && h.entries[n].answer == ClaimAnswer(AnswerBy(cfg, h, n, granted, done))
  {
    hide RecordKey;
    var request := h.entries[n].op.request;
    granted, done := KeyHistory(cfg, h, n, request.scope, request.key);
    if granted.None? {
      done := None;
    }
    assert StepAt(cfg, h, n);
  }

  /**
   * The holder of a key that was not granted again, completed or released since
   * is told that its completion or release took effect, at least until retention
   * after its grant; whoever holds another id is told that it did not.
   */
  lemma SettlingAnswerIs(cfg: Config, h: History, n: nat, claim: Claim, g: nat)
    requires Legal(cfg, h) && n < |h.entries|
    requires h.entries[n].op.Release? || h.entries[n].op.Complete?
    requires h.entries[n].op.claim == claim && LatestGrant(h, n, claim.scope, claim.key, Some(g))
    ensures h.entries[n].answer == Accepted(true) ==>
      && h.entries[g].op.newId == claim.claimId
      && LatestCompletion(h, n, claim.scope, claim.key, g, None) && !ReleasedSince(h, n, claim.scope, claim.key, g)
    ensures h.stores[n].now < h.stores[g].now + cfg.retention ==>
      (h.entries[n].answer == Accepted(
         && h.entries[g].op.newId == claim.claimId
         && LatestCompletion(h, n, claim.scope, claim.key, g, None)
         && !ReleasedSince(h, n, claim.scope, claim.key, g)))
  {
    hide RecordKey;
    var granted, done := KeyHistory(cfg, h, n, claim.scope, claim.key);
    assert StepAt(cfg, h, n);
    assert granted == Some(g);
  }
}
