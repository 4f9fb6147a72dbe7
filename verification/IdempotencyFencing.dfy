/**
 * What every history of the idempotency protocol guarantees: a claim id fences
 * its holder, a key is executed by one holder at a time, and a replay is the
 * response that was recorded last.
 */
module IdempotencyFencing {
  import opened Options
  import opened IdempotencyProtocol

  /** Step `n` granted the key (scope, key) to somebody. */
  predicate GrantedAt(h: History, n: nat, scope: string, key: string)
    requires n < |h.entries|
  {
    var e := h.entries[n];
    && e.op.TryClaim? && e.op.request.scope == scope && e.op.request.key == key
    && e.answer.ClaimAnswer? && e.answer.result.Claimed?
  }

  /** Step `n` completed or released `claim` and was told it succeeded. */
  predicate SettledAt(h: History, n: nat, claim: Claim)
    requires n < |h.entries|
  {
    var e := h.entries[n];
    && ((e.op.Complete? && e.op.claim == claim) || (e.op.Release? && e.op.claim == claim))
    && e.answer == Accepted(true)
  }

  predicate CompletedAt(h: History, n: nat, scope: string, key: string)
    requires n < |h.entries|
  {
    var e := h.entries[n];
    e.op.Complete? && e.op.claim.scope == scope && e.op.claim.key == key && e.answer == Accepted(true)
  }

  predicate ReleasedAt(h: History, n: nat, scope: string, key: string)
    requires n < |h.entries|
  {
    var e := h.entries[n];
    e.op.Release? && e.op.claim.scope == scope && e.op.claim.key == key && e.answer == Accepted(true)
  }

  lemma {:induction false} ClockNeverGoesBack(cfg: Config, h: History, m: nat, n: nat)
    requires Legal(cfg, h) && m <= n <= |h.entries|
    ensures h.stores[m].now <= h.stores[n].now
    ensures h.stores[m].issued <= h.stores[n].issued
    decreases n
  {
    if m < n {
      ClockNeverGoesBack(cfg, h, m, n - 1);
      assert StepAt(cfg, h, n - 1);
    }
  }

  // ---------------------------------------------------------------------------
  // Fencing
  // ---------------------------------------------------------------------------

  /** The key stored at a record's place names exactly one (scope, key). */
  lemma SameKey(a: Claim, scope: string, key: string)
    ensures RecordKey(a.scope, a.key) == RecordKey(scope, key) ==> a.scope == scope && a.key == key
  {
    if RecordKey(a.scope, a.key) == RecordKey(scope, key) {
      RecordKeyInjective(a.scope, a.key, scope, key);
    }
  }

  /**
   * Ownership has exactly one source: whoever owns a key after `n` steps was
   * granted it by some earlier step and has owned it without a gap ever since.
   */
  lemma {:induction false} OwnershipIsUnbroken(cfg: Config, h: History, n: nat, claim: Claim)
    returns (granted: nat)
    requires Legal(cfg, h) && n <= |h.entries|
    requires Owns(h.stores[n].records, claim)
    ensures granted < n && h.entries[granted].answer == ClaimAnswer(Claimed(claim))
    ensures GrantedAt(h, granted, claim.scope, claim.key)
    ensures forall m :: granted < m <= n ==> Owns(h.stores[m].records, claim)
    decreases n
  {
    assert n > 0;
    assert StepAt(cfg, h, n - 1);
    var before, op := h.stores[n - 1], h.entries[n - 1].op;
    if Owns(before.records, claim) {
      granted := OwnershipIsUnbroken(cfg, h, n - 1, claim);
    } else {
      assert op.TryClaim?;
      SameKey(claim, op.request.scope, op.request.key);
      granted := n - 1;
    }
  }

  /** An id that was drawn and no longer owns its key never owns it again. */
  lemma {:induction false} LostStaysLost(cfg: Config, h: History, m: nat, n: nat, claim: Claim)
    requires Legal(cfg, h) && m <= n <= |h.entries|
    requires claim.claimId in h.stores[m].issued
    requires !Owns(h.stores[m].records, claim)
    ensures !Owns(h.stores[n].records, claim)
    decreases n
  {
    if m < n {
      LostStaysLost(cfg, h, m, n - 1, claim);
      ClockNeverGoesBack(cfg, h, m, n - 1);
      assert StepAt(cfg, h, n - 1);
    }
  }

  /**
   * A claim settles at most once, and only while its grant still stands: there
   * is one earlier grant of exactly this claim, and between the two the key was
   * never regranted and the claim never lost it by a takeover, a completion, a
   * release or a purge. Nothing settles the claim again afterwards.
   */
  lemma Fencing(cfg: Config, h: History, n: nat, claim: Claim) returns (granted: nat)
    requires Legal(cfg, h) && n < |h.entries|
    requires SettledAt(h, n, claim)
    ensures granted < n && h.entries[granted].answer == ClaimAnswer(Claimed(claim))
    ensures forall m :: granted < m <= n ==> Owns(h.stores[m].records, claim)
    ensures forall m :: granted < m < n ==>
      !GrantedAt(h, m, claim.scope, claim.key) && !SettledAt(h, m, claim)
    ensures forall m :: n < m < |h.entries| ==> !SettledAt(h, m, claim)
  {
    assert StepAt(cfg, h, n);
    granted := OwnershipIsUnbroken(cfg, h, n, claim);
    assert StepAt(cfg, h, granted);
    forall m | granted < m < n
      ensures !GrantedAt(h, m, claim.scope, claim.key) && !SettledAt(h, m, claim)
    {
      SettlingEndsOwnership(cfg, h, m, claim);
      RegrantingEndsOwnership(cfg, h, m, granted, claim);
    }
    forall m | n < m < |h.entries|
      ensures !SettledAt(h, m, claim)
    {
      SettlingEndsOwnership(cfg, h, n, claim);
      ClockNeverGoesBack(cfg, h, granted + 1, n + 1);
      assert claim.claimId in h.stores[granted + 1].issued;
      LostStaysLost(cfg, h, n + 1, m, claim);
      assert StepAt(cfg, h, m);
    }
  }

  lemma SettlingEndsOwnership(cfg: Config, h: History, n: nat, claim: Claim)
    requires Legal(cfg, h) && n < |h.entries|
    ensures SettledAt(h, n, claim) ==> !Owns(h.stores[n + 1].records, claim)
  {
    assert StepAt(cfg, h, n);
  }

  lemma RegrantingEndsOwnership(cfg: Config, h: History, n: nat, granted: nat, claim: Claim)
    requires Legal(cfg, h) && granted < n < |h.entries|
    requires h.entries[granted].answer == ClaimAnswer(Claimed(claim))
    ensures GrantedAt(h, n, claim.scope, claim.key) ==>
      !Owns(h.stores[n + 1].records, claim)
  {
    if GrantedAt(h, n, claim.scope, claim.key) {
      ClockNeverGoesBack(cfg, h, granted + 1, n);
      assert StepAt(cfg, h, n);
      assert StepAt(cfg, h, granted);
      assert claim.claimId in h.stores[granted + 1].issued;
    }
  }

  // ---------------------------------------------------------------------------
  // Single execution
  // ---------------------------------------------------------------------------

  /** What a grant made at `since` leaves behind until the hold runs out. */
  ghost predicate Held(cfg: Config, store: Store, id: string, since: Time) {
    && id in store.records
    && (store.records[id].phase == InProgress ==> store.records[id].claimedAt >= since)
    && store.records[id].expiresAt >= since + cfg.retention
  }

  lemma {:induction false} GrantHolds(cfg: Config, h: History, i: nat, n: nat, scope: string, key: string)
    requires cfg.Valid() && Legal(cfg, h) && i < n <= |h.entries|
    requires GrantedAt(h, i, scope, key)
    ensures var since := h.stores[i].now;
      || Held(cfg, h.stores[n], RecordKey(scope, key), since)
      || h.stores[n].now >= since + cfg.Hold()
      || (exists m :: i < m < n && ReleasedAt(h, m, scope, key))
    decreases n
  {
    assert StepAt(cfg, h, n - 1);
    if n > i + 1 {
      GrantHolds(cfg, h, i, n - 1, scope, key);
      ClockNeverGoesBack(cfg, h, i, n - 1);
      var op := h.entries[n - 1].op;
      if op.Release? {
        SameKey(op.claim, scope, key);
        assert Owns(h.stores[n - 1].records, op.claim) && op.claim.scope == scope && op.claim.key == key ==>
          ReleasedAt(h, n - 1, scope, key);
      }
    }
  }

  /**
   * Two grants of one key are at least min(lease, retention) apart unless the
   * first holder gave the key back in between.
   */
  lemma GrantsAreSeparated(cfg: Config, h: History, i: nat, j: nat, scope: string, key: string)
    requires cfg.Valid() && Legal(cfg, h) && i < j < |h.entries|
    requires GrantedAt(h, i, scope, key) && GrantedAt(h, j, scope, key)
    ensures
      || h.stores[j].now >= h.stores[i].now + cfg.Hold()
      || (exists m :: i < m < j && ReleasedAt(h, m, scope, key))
  {
    GrantHolds(cfg, h, i, j, scope, key);
    assert StepAt(cfg, h, j);
  }

  lemma {:induction false} CompletionHolds(
    cfg: Config, h: History, i: nat, n: nat, scope: string, key: string)
    requires cfg.Valid() && Legal(cfg, h) && i < n <= |h.entries|
    requires CompletedAt(h, i, scope, key)
    ensures var id, since, store := RecordKey(scope, key), h.stores[i].now, h.stores[n];
      || (id in store.records && store.records[id].phase == Completed
          && store.records[id].expiresAt >= since + cfg.retention)
      || store.now >= since + cfg.retention
    decreases n
  {
    assert StepAt(cfg, h, n - 1);
    if n > i + 1 {
      CompletionHolds(cfg, h, i, n - 1, scope, key);
      ClockNeverGoesBack(cfg, h, i, n - 1);
    }
  }

  /** No key is granted again within the retention window of a completion. */
  lemma NoGrantWithinRetention(cfg: Config, h: History, i: nat, j: nat, scope: string, key: string)
    requires cfg.Valid() && Legal(cfg, h) && i < j < |h.entries|
    requires CompletedAt(h, i, scope, key) && GrantedAt(h, j, scope, key)
    ensures h.stores[j].now >= h.stores[i].now + cfg.retention
  {
    CompletionHolds(cfg, h, i, j, scope, key);
    assert StepAt(cfg, h, j);
  }

  // ---------------------------------------------------------------------------
  // Replays
  // ---------------------------------------------------------------------------

  /** A completed record carries the response of the latest completion of its key. */
  lemma {:induction false} CompletedRecordIsLatest(
    cfg: Config, h: History, n: nat, scope: string, key: string) returns (done: nat)
    requires Legal(cfg, h) && n <= |h.entries|
    requires var id := RecordKey(scope, key);
      id in h.stores[n].records && h.stores[n].records[id].phase == Completed
    ensures done < n && CompletedAt(h, done, scope, key)
    ensures h.stores[n].records[RecordKey(scope, key)].response == Some(h.entries[done].op.response)
    ensures h.stores[n].records[RecordKey(scope, key)].expiresAt == h.stores[done].now + cfg.retention
    ensures forall m :: done < m < n ==> !CompletedAt(h, m, scope, key)
    decreases n
  {
    var id := RecordKey(scope, key);
    assert n > 0;
    assert StepAt(cfg, h, n - 1);
    var before, op := h.stores[n - 1], h.entries[n - 1].op;
    if id in before.records && before.records[id].phase == Completed {
      done := CompletedRecordIsLatest(cfg, h, n - 1, scope, key);
    } else {
      assert op.Complete?;
      SameKey(op.claim, scope, key);
      done := n - 1;
    }
  }

  /** Every replay is exactly the response of the key's latest successful completion. */
  lemma ReplayIsLatestCompletion(cfg: Config, h: History, n: nat) returns (done: nat)
    requires Legal(cfg, h) && n < |h.entries|
    requires h.entries[n].op.TryClaim? && h.entries[n].answer.ClaimAnswer? && h.entries[n].answer.result.Replay?
    ensures var request := h.entries[n].op.request;
      && done < n && CompletedAt(h, done, request.scope, request.key)
      && h.entries[n].answer.result.response == h.entries[done].op.response
      && (forall m :: done < m < n ==> !CompletedAt(h, m, request.scope, request.key))
  {
    var request := h.entries[n].op.request;
    assert StepAt(cfg, h, n);
    done := CompletedRecordIsLatest(cfg, h, n, request.scope, request.key);
  }

  /** A record carries the id and the fingerprint of the latest grant of its key. */
  lemma {:induction false} RecordRemembersGrant(
    cfg: Config, h: History, n: nat, scope: string, key: string) returns (granted: nat)
    requires Legal(cfg, h) && n <= |h.entries| && RecordKey(scope, key) in h.stores[n].records
    ensures granted < n && GrantedAt(h, granted, scope, key)
    ensures var record, op := h.stores[n].records[RecordKey(scope, key)], h.entries[granted].op;
      && record.claimId == op.newId && record.fingerprint == op.request.fingerprint
      && record.claimedAt == h.stores[granted].now
      && (record.phase == InProgress ==> record.expiresAt == h.stores[granted].now + cfg.retention)
    ensures forall m :: granted < m < n ==> !GrantedAt(h, m, scope, key)
    decreases n
  {
    hide RecordKey;
    var id := RecordKey(scope, key);
    assert n > 0;
    assert StepAt(cfg, h, n - 1);
    var before, op := h.stores[n - 1], h.entries[n - 1].op;
    if GrantedAt(h, n - 1, scope, key) {
      granted := n - 1;
    } else {
      if op.TryClaim? {
        SameKey(Claim(op.request.scope, op.request.key, op.newId), scope, key);
      }
      granted := RecordRemembersGrant(cfg, h, n - 1, scope, key);
    }
  }

  /**
   * A claim that is not granted meets a live record of an earlier grant, and is
   * told of a mismatch exactly when its fingerprint is not that grant's; so a
   * response is only ever replayed to the request it answered.
   */
  lemma MismatchIffOtherRequest(cfg: Config, h: History, n: nat) returns (granted: nat)
    requires Legal(cfg, h) && n < |h.entries| && h.entries[n].op.TryClaim?
    requires !GrantedAt(h, n, h.entries[n].op.request.scope, h.entries[n].op.request.key)
    ensures var request := h.entries[n].op.request;
      && granted < n && GrantedAt(h, granted, request.scope, request.key)
      && (forall m :: granted < m < n ==> !GrantedAt(h, m, request.scope, request.key))
      && h.entries[n].answer.ClaimAnswer?
      && (h.entries[n].answer.result.Mismatch? <==> h.entries[granted].op.request.fingerprint != request.fingerprint)
  {
    hide RecordKey;
    var request := h.entries[n].op.request;
    assert StepAt(cfg, h, n);
    granted := RecordRemembersGrant(cfg, h, n, request.scope, request.key);
  }

  /**
   * A claim is turned away only while the key is held: within min(lease,
   * retention) of its latest grant, or within retention of a completion.
   */
  lemma TurnedAwayOnlyWhileHeld(cfg: Config, h: History, n: nat) returns (granted: nat, done: Option<nat>)
    requires cfg.Valid() && Legal(cfg, h) && n < |h.entries| && h.entries[n].op.TryClaim?
    requires !GrantedAt(h, n, h.entries[n].op.request.scope, h.entries[n].op.request.key)
    ensures var request := h.entries[n].op.request;
      && granted < n && GrantedAt(h, granted, request.scope, request.key)
      && match done
         case None => h.stores[n].now < h.stores[granted].now + cfg.Hold()
         case Some(d) => d < n && CompletedAt(h, d, request.scope, request.key)
                         && h.stores[n].now < h.stores[d].now + cfg.retention
  {
    hide RecordKey;
    var request := h.entries[n].op.request;
    assert StepAt(cfg, h, n);
    granted := RecordRemembersGrant(cfg, h, n, request.scope, request.key);
    done := None;
    if h.stores[n].records[RecordKey(request.scope, request.key)].phase == Completed {
      var d := CompletedRecordIsLatest(cfg, h, n, request.scope, request.key);
      done := Some(d);
    }
  }
}
