/** What presenting a refresh token is answered with, from what was done in the run and not from the records. */
module TokenHistory {
  import opened TokenStore
  import opened TokenFamilies

  predicate Issues(step: Step, token: Token) {
    (step.Login? || step.IssueSuccessor?) && step.token == token
  }

  predicate Presents(step: Step, token: Token) {
    step.Refresh? && step.token == token
  }

  /** A logout of this token, of its user everywhere, or the alarm for its family. */
  predicate Retires(s: System, step: Step, token: Token, userId: UserId, familyId: FamilyId) {
    match step
    case Logout(t) => t == token
    case LogoutAll(u) => u == userId
    case RevokeReused(flow) => flow in s.flows && s.flows[flow].familyId == familyId
    case _ => false
  }

  /** What the token was issued as; a successor is in the family its refresh is rotating. */
  function IssuedAs(s: System, step: Step): Record
    requires CanStep(s, step) && (step.Login? || step.IssueSuccessor?)
  {
    var familyId := if step.Login? then step.familyId else s.flows[step.flow].familyId;
    Record(step.userId, familyId, Active, step.expiresAt)
  }

  ghost predicate RetiredBetween(run: Run, i: nat, n: nat, token: Token, r: Record)
    requires |run.systems| == |run.steps| + 1 && n <= |run.steps|
  {
    exists j :: i < j < n && Retires(run.systems[j], run.steps[j], token, r.userId, r.familyId)
  }

  ghost predicate PresentedBetween(run: Run, i: nat, n: nat, token: Token)
    requires n <= |run.steps|
  {
    exists j :: i < j < n && Presents(run.steps[j], token)
  }

  /** The phase that follows from what was done since step `i` issued the token. */
  ghost function PhaseAt(run: Run, i: nat, n: nat, token: Token, r: Record): Phase
    requires |run.systems| == |run.steps| + 1 && n <= |run.steps|
  {
    if RetiredBetween(run, i, n, token, r) then Revoked
    else if PresentedBetween(run, i, n, token) then Rotated
    else Active
  }

  /** Until it expires the token is on record as it was issued, in that phase. */
  ghost predicate OnRecord(s: System, token: Token, r: Record, phase: Phase) {
    && token in s.tokens
    && (token in s.store.records ==> s.store.records[token].expiresAt == r.expiresAt)
    && (s.now < r.expiresAt ==> token in s.store.records && s.store.records[token] == r.(phase := phase))
  }

  lemma IssueIsRecorded(s: System, step: Step)
    requires CanStep(s, step) && (step.Login? || step.IssueSuccessor?)
    ensures OnRecord(After(s, step), step.token, IssuedAs(s, step), Active)
  {
  }

  lemma StepOnRecord(s: System, step: Step, token: Token, r: Record, phase: Phase)
    requires CanStep(s, step) && OnRecord(s, token, r, phase)
    ensures !Issues(step, token)
    ensures OnRecord(After(s, step), token, r,
                     if Retires(s, step, token, r.userId, r.familyId) then Revoked
                     else if Presents(step, token) && phase == Active then Rotated
                     else phase)
  {
  }

  lemma {:induction false} RecordHolds(now: int, run: Run, i: nat, n: nat, token: Token)
    requires IsRunFrom(Start(now), run) && i < n <= |run.steps| && RunStep(run, i) && Issues(run.steps[i], token)
    ensures var r := IssuedAs(run.systems[i], run.steps[i]);
      OnRecord(run.systems[n], token, r, PhaseAt(run, i, n, token, r))
  {
    hide After, OnRecord;
    var r := IssuedAs(run.systems[i], run.steps[i]);
    if n == i + 1 {
      IssueIsRecorded(run.systems[i], run.steps[i]);
    } else {
      var m := n - 1;
      RecordHolds(now, run, i, m, token);
      assert RunStep(run, m);
      StepOnRecord(run.systems[m], run.steps[m], token, r, PhaseAt(run, i, m, token, r));
      PhaseMoves(run, i, m, token, r);
    }
  }

  lemma PhaseMoves(run: Run, i: nat, m: nat, token: Token, r: Record)
    requires |run.systems| == |run.steps| + 1 && i < m < |run.steps|
    ensures PhaseAt(run, i, m + 1, token, r) ==
      if Retires(run.systems[m], run.steps[m], token, r.userId, r.familyId) then Revoked
      else if Presents(run.steps[m], token) && PhaseAt(run, i, m, token, r) == Active then Rotated
      else PhaseAt(run, i, m, token, r)
  {
    hide Retires, Presents;
    assert RetiredBetween(run, i, m + 1, token, r) <==>
      RetiredBetween(run, i, m, token, r) || Retires(run.systems[m], run.steps[m], token, r.userId, r.familyId);
    assert PresentedBetween(run, i, m + 1, token) <==>
      PresentedBetween(run, i, m, token) || Presents(run.steps[m], token);
  }

  /** The answer an issued token gets: whom it names never changes, only whether it is still good. */
  ghost function AnswerTo(run: Run, i: nat, n: nat, token: Token, r: Record): Consumption
    requires |run.systems| == |run.steps| + 1 && n <= |run.steps|
  {
    if run.systems[n].now >= r.expiresAt then Unknown
    else if RetiredBetween(run, i, n, token, r) then WasRevoked(r.userId, r.familyId)
    else if PresentedBetween(run, i, n, token) then Reuse(r.userId, r.familyId)
    else Spent(r.userId, r.familyId)
  }

  /**
   * Presenting a token that step `i` issued: unknown once it has expired, else
   * revoked if a logout or an alarm was aimed at it since, else reused if it was
   * presented since, else spent, and always for the user and family it was
   * issued for.
   */
  lemma PresentationIsAnswered(now: int, run: Run, i: nat, n: nat, token: Token)
    requires IsRunFrom(Start(now), run) && i < n < |run.steps| && RunStep(run, i)
    requires Issues(run.steps[i], token) && Presents(run.steps[n], token)
    ensures var answer := AnswerTo(run, i, n, token, IssuedAs(run.systems[i], run.steps[i]));
      run.systems[n + 1].log == run.systems[n].log + [Presented(token, answer)]
  {
    hide RetiredBetween, PresentedBetween;
    assert RunStep(run, n);
    RecordHolds(now, run, i, n, token);
  }

  /** A token is good exactly until it expires, is presented, or a logout or an alarm is aimed at it. */
  lemma ActiveIs(now: int, run: Run, i: nat, n: nat, token: Token)
    requires IsRunFrom(Start(now), run) && i < n <= |run.steps| && RunStep(run, i) && Issues(run.steps[i], token)
    ensures var r, s := IssuedAs(run.systems[i], run.steps[i]), run.systems[n];
      IsActive(s.store.records, token, s.now) <==>
      s.now < r.expiresAt && !RetiredBetween(run, i, n, token, r) && !PresentedBetween(run, i, n, token)
  {
    hide RetiredBetween, PresentedBetween;
    RecordHolds(now, run, i, n, token);
  }

  // ---------------------------------------------------------------------------
  // What was never issued, and where a successor comes from
  // ---------------------------------------------------------------------------

  lemma {:induction false} NamesWereIssued(now: int, run: Run, n: nat, token: Token)
    requires IsRunFrom(Start(now), run) && n <= |run.steps|
    requires forall i :: 0 <= i < n ==> !Issues(run.steps[i], token)
    ensures token !in run.systems[n].tokens && token !in run.systems[n].store.records
  {
    hide ExpiredTokens;
    if n > 0 {
      NamesWereIssued(now, run, n - 1, token);
      assert RunStep(run, n - 1);
    }
  }

  /** A string that was never issued is unknown, and presenting it changes no record. */
  lemma NeverIssuedIsUnknown(now: int, run: Run, n: nat, token: Token)
    requires IsRunFrom(Start(now), run) && n < |run.steps| && Presents(run.steps[n], token)
    requires forall i :: 0 <= i < n ==> !Issues(run.steps[i], token)
    ensures run.systems[n + 1].log == run.systems[n].log + [Presented(token, Unknown)]
    ensures run.systems[n + 1].store == run.systems[n].store && run.systems[n + 1].flows == run.systems[n].flows
  {
    NamesWereIssued(now, run, n, token);
    assert RunStep(run, n);
  }

  /** What a presentation leaves to be done: issue a successor, raise the alarm, or nothing. */
  function Opened(outcome: Consumption): set<Flow> {
    if outcome.Spent? then {Rotating(outcome.userId, outcome.familyId)}
    else if outcome.Reuse? then {Revoking(outcome.familyId)}
    else {}
  }

  /**
   * A refresh under way goes on with what its own presentation, the last one in
   * its name, was answered with: a successor joins the family of the token that
   * was spent for it, and an alarm revokes the family of the token that was
   * reused.
   */
  lemma {:induction false} RefreshGoesOn(now: int, run: Run, n: nat, flow: nat) returns (j: nat, answer: Consumption)
    requires IsRunFrom(Start(now), run) && n <= |run.steps| && flow in run.systems[n].flows
    ensures j < n && run.steps[j].Refresh? && run.steps[j].flow == flow
    ensures forall k :: j < k < n && run.steps[k].Refresh? ==> run.steps[k].flow != flow
    ensures run.systems[j + 1].log == run.systems[j].log + [Presented(run.steps[j].token, answer)]
    ensures run.systems[n].flows[flow] in Opened(answer)
  {
    hide AfterIssue, AfterConsume, AfterSweep, AfterRevoke, AfterLookup, AfterPrune, Consume;
    assert n > 0;
    assert RunStep(run, n - 1);
    if flow in run.systems[n - 1].flows {
      j, answer := RefreshGoesOn(now, run, n - 1, flow);
    } else {
      j := n - 1;
      answer := Consume(run.systems[j].store.records, run.steps[j].token, run.systems[j].now);
    }
  }

  /** Issuing a token drops what has expired if a minute has passed since that was last done, and nothing else ever. */
  lemma IssueSweepsInTime(s: System, step: Step)
    requires CanStep(s, step) && (step.Login? || step.IssueSuccessor?)
    ensures var before, after := s.store, After(s, step).store;
      && (s.now - before.lastPrunedAt >= 60_000 ==>
            && after.lastPrunedAt == s.now
            && (forall t :: t in after.records && t != step.token ==> after.records[t].expiresAt > s.now))
      && (s.now - before.lastPrunedAt < 60_000 ==> after.lastPrunedAt == before.lastPrunedAt)
      && (forall t :: t in before.records && t != step.token ==>
            if t in after.records then after.records[t] == before.records[t]
            else before.records[t].expiresAt <= s.now && after.lastPrunedAt == s.now)
  {
  }
}
