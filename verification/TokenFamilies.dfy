/**
 * Rotation families under every interleaving: logins, refreshes that consume
 * and later issue or revoke, logouts, sweeps and the clock, each a separate
 * step on the store.
 */
module TokenFamilies {
  import opened TokenStore

  /** A refresh between its consume and its last store step. */
  datatype Flow = Rotating(userId: UserId, familyId: FamilyId) | Revoking(familyId: FamilyId)

  datatype Presented = Presented(token: Token, outcome: Consumption)

  /** History: token strings and family ids ever used, and every presentation with its outcome. */
  datatype System = System(
    now: int,
    store: Store,
    flows: map<nat, Flow>,
    tokens: set<Token>,
    families: set<FamilyId>,
    log: seq<Presented>)

  datatype Step =
    | Login(token: Token, userId: UserId, familyId: FamilyId, expiresAt: int)
    | Refresh(flow: nat, token: Token)
    | IssueSuccessor(flow: nat, token: Token, userId: UserId, expiresAt: int)
    | RevokeReused(flow: nat)
    | Abandon(flow: nat)
    | Logout(token: Token)
    | LogoutAll(userId: UserId)
    | Check(token: Token)
    | Sweep
    | Wait(elapsed: nat)

  predicate CanStep(s: System, step: Step) {
    match step
    case Login(token, _, familyId, _) => token !in s.tokens && familyId !in s.families
    case Refresh(flow, _) => flow !in s.flows
    case IssueSuccessor(flow, token, _, _) => flow in s.flows && s.flows[flow].Rotating? && token !in s.tokens
    case RevokeReused(flow) => flow in s.flows && s.flows[flow].Revoking?
    case Abandon(flow) => flow in s.flows
    case _ => true
  }

  function After(s: System, step: Step): System
    requires CanStep(s, step)
  {
    var records := s.store.records;
    match step
    case Login(token, userId, familyId, expiresAt) =>
      s.(store := AfterIssue(s.store, token, userId, familyId, expiresAt, s.now),
         tokens := s.tokens + {token}, families := s.families + {familyId})
    case Refresh(flow, token) =>
      var outcome := Consume(records, token, s.now);
      s.(store := s.store.(records := AfterConsume(records, token, s.now)),
         log := s.log + [Presented(token, outcome)],
         flows := if outcome.Spent? then s.flows[flow := Rotating(outcome.userId, outcome.familyId)]
                  else if outcome.Reuse? then s.flows[flow := Revoking(outcome.familyId)]
                  else s.flows)
    case IssueSuccessor(flow, token, userId, expiresAt) =>
      s.(store := AfterIssue(s.store, token, userId, s.flows[flow].familyId, expiresAt, s.now),
         tokens := s.tokens + {token}, flows := s.flows - {flow})
    case RevokeReused(flow) =>
      s.(store := s.store.(records := AfterSweep(records, Family(s.flows[flow].familyId), s.now)),
         flows := s.flows - {flow})
    case Abandon(flow) => s.(flows := s.flows - {flow})
    case Logout(token) => s.(store := s.store.(records := AfterRevoke(records, token, s.now)))
    case LogoutAll(userId) => s.(store := s.store.(records := AfterSweep(records, User(userId), s.now)))
    case Check(token) => s.(store := s.store.(records := AfterLookup(records, token, s.now)))
    case Sweep => s.(store := AfterPrune(s.store, s.now))
    case Wait(elapsed) => s.(now := s.now + elapsed)
  }

  // ---------------------------------------------------------------------------
  // The chain is linear
  // ---------------------------------------------------------------------------

  function ActiveIn(records: Records, f: FamilyId): set<Token> {
    set t | t in records && records[t].familyId == f && records[t].phase == Active
  }

  function RotatingIn(flows: map<nat, Flow>, f: FamilyId): set<nat> {
    set n | n in flows && flows[n].Rotating? && flows[n].familyId == f
  }

  /** Names in the store were handed out; nothing is known of names that were not. */
  ghost predicate NamesInv(s: System) {
    && s.store.records.Keys <= s.tokens
    && (forall t :: t in s.store.records ==> s.store.records[t].familyId in s.families)
    && (forall n :: n in s.flows ==> s.flows[n].familyId in s.families)
  }

  ghost predicate LinearInv(s: System, f: FamilyId) {
    |ActiveIn(s.store.records, f)| + |RotatingIn(s.flows, f)| <= 1
  }

  /** A token that has been spent is never active again. */
  ghost predicate SpentInv(s: System) {
    forall i :: 0 <= i < |s.log| && s.log[i].outcome.Spent? ==>
      && s.log[i].token in s.tokens
      && (s.log[i].token in s.store.records ==> s.store.records[s.log[i].token].phase != Active)
  }

  lemma StepKeepsNames(s: System, step: Step)
    requires CanStep(s, step) && NamesInv(s)
    ensures NamesInv(After(s, step))
  {
    hide ExpiredTokens;
  }

  lemma SubsetIsSmaller<T>(a: set<T>, b: set<T>)
    requires a <= b
    ensures |a| <= |b|
  {
    assert b == a + (b - a);
  }

  lemma {:induction false} StepKeepsLinear(s: System, step: Step, f: FamilyId)
    requires CanStep(s, step) && NamesInv(s) && LinearInv(s, f)
    ensures LinearInv(After(s, step), f)
  {
    hide After, NamesInv, LinearInv;
    match step
    case Login(_, _, _, _) => LoginAddsOne(s, step, f);
    case Refresh(_, _) => RefreshMovesOne(s, step, f);
    case IssueSuccessor(_, _, _, _) => IssueMovesOne(s, step, f);
    case _ => ShrinkingKeepsLinear(s, step, f);
  }

  lemma LoginAddsOne(s: System, step: Step, f: FamilyId)
    requires CanStep(s, step) && NamesInv(s) && LinearInv(s, f) && step.Login?
    ensures LinearInv(After(s, step), f)
  {
    hide ExpiredTokens;
    var after := After(s, step);
    var a, a' := ActiveIn(s.store.records, f), ActiveIn(after.store.records, f);
    assert RotatingIn(after.flows, f) == RotatingIn(s.flows, f);
    if step.familyId == f {
      assert a == {} && RotatingIn(s.flows, f) == {};
      assert a' == {step.token};
    } else {
      assert a' <= a;
      SubsetIsSmaller(a', a);
    }
  }

  /** Taking an element from one set and adding at most one to the other keeps the total. */
  lemma MoveOne<S, T>(a: set<S>, a': set<S>, x: S, r: set<T>, r': set<T>, y: T)
    requires x in a && a' <= a - {x} && r' <= r + {y}
    ensures |a'| + |r'| <= |a| + |r|
  {
    SubsetIsSmaller(a', a - {x});
    SubsetIsSmaller(r', r + {y});
  }

  lemma RefreshMovesOne(s: System, step: Step, f: FamilyId)
    requires CanStep(s, step) && LinearInv(s, f) && step.Refresh?
    ensures LinearInv(After(s, step), f)
  {
    hide After, ActiveIn, RotatingIn;
    RefreshSets(s, step, f);
    var a, a' := ActiveIn(s.store.records, f), ActiveIn(After(s, step).store.records, f);
    var r, r' := RotatingIn(s.flows, f), RotatingIn(After(s, step).flows, f);
    if a' <= a && r' <= r {
      SubsetIsSmaller(a', a);
      SubsetIsSmaller(r', r);
    } else {
      MoveOne(a, a', step.token, r, r', step.flow);
    }
  }

  lemma RefreshSets(s: System, step: Step, f: FamilyId)
    requires CanStep(s, step) && step.Refresh?
    ensures var a, a' := ActiveIn(s.store.records, f), ActiveIn(After(s, step).store.records, f);
      var r, r' := RotatingIn(s.flows, f), RotatingIn(After(s, step).flows, f);
      (a' <= a && r' <= r) || (step.token in a && a' <= a - {step.token} && r' <= r + {step.flow})
  {
  }

  lemma IssueMovesOne(s: System, step: Step, f: FamilyId)
    requires CanStep(s, step) && LinearInv(s, f) && step.IssueSuccessor?
    ensures LinearInv(After(s, step), f)
  {
    hide After, ActiveIn, RotatingIn;
    IssueSets(s, step, f);
    var a, a' := ActiveIn(s.store.records, f), ActiveIn(After(s, step).store.records, f);
    var r, r' := RotatingIn(s.flows, f), RotatingIn(After(s, step).flows, f);
    if a' <= a && r' <= r {
      SubsetIsSmaller(a', a);
      SubsetIsSmaller(r', r);
    } else {
      MoveOne(r, r', step.flow, a, a', step.token);
    }
  }

  lemma IssueSets(s: System, step: Step, f: FamilyId)
    requires CanStep(s, step) && step.IssueSuccessor?
    ensures var a, a' := ActiveIn(s.store.records, f), ActiveIn(After(s, step).store.records, f);
      var r, r' := RotatingIn(s.flows, f), RotatingIn(After(s, step).flows, f);
      (a' <= a && r' <= r) || (step.flow in r && r' <= r - {step.flow} && a' <= a + {step.token})
  {
    hide ExpiredTokens;
  }

  lemma ShrinkingKeepsLinear(s: System, step: Step, f: FamilyId)
    requires CanStep(s, step) && NamesInv(s) && LinearInv(s, f)
    requires !step.Login? && !step.Refresh? && !step.IssueSuccessor?
    ensures LinearInv(After(s, step), f)
  {
    var after := After(s, step);
    SubsetIsSmaller(ActiveIn(after.store.records, f), ActiveIn(s.store.records, f));
    SubsetIsSmaller(RotatingIn(after.flows, f), RotatingIn(s.flows, f));
  }

  lemma StepKeepsSpent(s: System, step: Step)
    requires CanStep(s, step) && NamesInv(s) && SpentInv(s)
    ensures SpentInv(After(s, step))
    ensures step.Refresh? && Consume(s.store.records, step.token, s.now).Spent? ==>
      forall i :: 0 <= i < |s.log| && s.log[i].outcome.Spent? ==> s.log[i].token != step.token
  {
    hide ExpiredTokens;
  }

  // ---------------------------------------------------------------------------
  // Runs
  // ---------------------------------------------------------------------------

  datatype Run = Run(systems: seq<System>, steps: seq<Step>)

  ghost predicate RunStep(run: Run, n: nat)
    requires |run.systems| == |run.steps| + 1 && n < |run.steps|
  {
    CanStep(run.systems[n], run.steps[n]) && run.systems[n + 1] == After(run.systems[n], run.steps[n])
  }

  ghost predicate IsRunFrom(start: System, run: Run) {
    && |run.systems| == |run.steps| + 1
    && run.systems[0] == start
    && forall n :: 0 <= n < |run.steps| ==> RunStep(run, n)
  }

  /** An empty store at any time of day. */
  function Start(now: int): System {
    System(now, Store(map[], now), map[], {}, {}, [])
  }

  lemma {:induction false} InvHolds(now: int, run: Run, n: nat, f: FamilyId)
    requires IsRunFrom(Start(now), run) && n <= |run.steps|
    ensures NamesInv(run.systems[n]) && LinearInv(run.systems[n], f) && SpentInv(run.systems[n])
  {
    if n == 0 {
      assert ActiveIn(map[], f) == {} && RotatingIn(map[], f) == {};
    } else {
      InvHolds(now, run, n - 1, f);
      assert RunStep(run, n - 1);
      hide After;
      StepKeepsNames(run.systems[n - 1], run.steps[n - 1]);
      StepKeepsLinear(run.systems[n - 1], run.steps[n - 1], f);
      StepKeepsSpent(run.systems[n - 1], run.steps[n - 1]);
    }
  }

  /**
   * The chain is linear: at any moment a family has at most one active token or
   * one refresh that has consumed and not yet issued, never both.
   */
  lemma LinearChain(now: int, run: Run, n: nat, f: FamilyId)
    requires IsRunFrom(Start(now), run) && n <= |run.steps|
    ensures |ActiveIn(run.systems[n].store.records, f)| + |RotatingIn(run.systems[n].flows, f)| <= 1
  {
    InvHolds(now, run, n, f);
  }

  /** No token is ever spent twice, however the refreshes interleave. */
  lemma {:induction false} SpentAtMostOnce(now: int, run: Run, n: nat, i: nat, j: nat)
    requires IsRunFrom(Start(now), run) && n <= |run.steps| && i < j < |run.systems[n].log|
    requires run.systems[n].log[i].outcome.Spent? && run.systems[n].log[j].outcome.Spent?
    ensures run.systems[n].log[i].token != run.systems[n].log[j].token
    decreases n
  {
    assert n > 0;
    var before := run.systems[n - 1];
    assert RunStep(run, n - 1);
    InvHolds(now, run, n - 1, 0);
    StepKeepsSpent(before, run.steps[n - 1]);
    assert before.log <= run.systems[n].log;
    if j < |before.log| {
      SpentAtMostOnce(now, run, n - 1, i, j);
    } else {
      assert run.steps[n - 1].Refresh? && run.systems[n].log[j].token == run.steps[n - 1].token;
    }
  }
}
