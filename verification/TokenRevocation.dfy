/** What a family revocation achieves, and that dropping expired records is invisible. */
module TokenRevocation {
  import opened TokenStore
  import opened TokenFamilies

  ghost predicate AllRevoked(records: Records, f: FamilyId) {
    forall t :: t in records && records[t].familyId == f ==> records[t].phase == Revoked
  }

  /** A revocation reaches every member it finds, spent ones included. */
  lemma RevocationReachesEveryone(s: System, step: Step)
    requires CanStep(s, step) && step.RevokeReused?
    ensures AllRevoked(After(s, step).store.records, s.flows[step.flow].familyId)
  {
  }

  /** Presenting a token of family `f` spends it or raises the alarm again. */
  predicate ComesBack(s: System, step: Step, f: FamilyId) {
    && step.Refresh?
    && var outcome := Consume(s.store.records, step.token, s.now);
       (outcome.Spent? || outcome.Reuse?) && outcome.familyId == f
  }

  /** Some continuation brings the family back. */
  ghost predicate Revives(s: System, f: FamilyId) {
    exists run, n :: IsRunFrom(s, run) && 0 <= n < |run.steps| && ComesBack(run.systems[n], run.steps[n], f)
  }

  ghost predicate DeadFamily(s: System, f: FamilyId) {
    f in s.families && AllRevoked(s.store.records, f) && RotatingIn(s.flows, f) == {}
  }

  lemma StepKeepsDead(s: System, step: Step, f: FamilyId)
    requires CanStep(s, step) && DeadFamily(s, f)
    ensures DeadFamily(After(s, step), f) && !ComesBack(s, step, f)
  {
    hide ExpiredTokens;
    if step.IssueSuccessor? {
      assert step.flow !in RotatingIn(s.flows, f);
    }
    forall n | n in RotatingIn(After(s, step).flows, f)
      ensures n in RotatingIn(s.flows, f)
    {
    }
  }

  lemma {:induction false} DeadStaysDead(s: System, run: Run, n: nat, f: FamilyId)
    requires IsRunFrom(s, run) && n <= |run.steps| && DeadFamily(s, f)
    ensures DeadFamily(run.systems[n], f)
    ensures n < |run.steps| ==> !ComesBack(run.systems[n], run.steps[n], f)
  {
    hide After, DeadFamily, ComesBack;
    if n > 0 {
      DeadStaysDead(s, run, n - 1, f);
      assert RunStep(run, n - 1);
      StepKeepsDead(run.systems[n - 1], run.steps[n - 1], f);
    }
    if n < |run.steps| {
      assert RunStep(run, n);
      StepKeepsDead(run.systems[n], run.steps[n], f);
    }
  }

  lemma {:induction false} FreshName(names: set<nat>) returns (name: nat)
    ensures forall x :: x in names ==> x < name
  {
    if names == {} {
      name := 0;
    } else {
      var x :| x in names;
      var rest := FreshName(names - {x});
      name := if x < rest then rest else x + 1;
      assert forall y :: y in names ==> y == x || y in names - {x};
    }
  }

  /** A rotation in flight finishes and its successor is accepted. */
  lemma InFlightRevives(s: System, f: FamilyId, flow: nat) returns (run: Run)
    requires flow in RotatingIn(s.flows, f)
    ensures IsRunFrom(s, run) && |run.steps| == 2 && ComesBack(run.systems[1], run.steps[1], f)
  {
    hide ExpiredTokens;
    var token := FreshName(s.tokens);
    var issue := IssueSuccessor(flow, token, s.flows[flow].userId, s.now + 1);
    var mid := After(s, issue);
    var present := Refresh(flow, token);
    run := Run([s, mid, After(mid, present)], [issue, present]);
    assert RunStep(run, 0);
    assert RunStep(run, 1);
  }

  /**
   * After its members are revoked, a family stays dead for every continuation
   * exactly when no rotation of it was in flight: a refresh that had already
   * consumed still issues a live successor.
   */
  lemma RevivesIffInFlight(s: System, f: FamilyId)
    requires f in s.families && AllRevoked(s.store.records, f)
    ensures Revives(s, f) <==> RotatingIn(s.flows, f) != {}
  {
    if RotatingIn(s.flows, f) == {} {
      forall run, n | IsRunFrom(s, run) && 0 <= n < |run.steps|
        ensures !ComesBack(run.systems[n], run.steps[n], f)
      {
        DeadStaysDead(s, run, n, f);
      }
    } else {
      var flow :| flow in RotatingIn(s.flows, f);
      var run := InFlightRevives(s, f, flow);
    }
  }

  /** A login and a refresh that has spent its token and not issued yet. */
  function SpentState(now: int): System {
    var record := Record(0, 0, Rotated, now + 1);
    System(now, Store(map[0 := record], now), map[1 := Rotating(0, 0)], {0}, {0}, [Presented(0, Spent(0, 0))])
  }

  lemma SpentStateIsReached(now: int)
    ensures After(After(Start(now), Login(0, 0, 0, now + 1)), Refresh(1, 0)) == SpentState(now)
  {
    var s := After(Start(now), Login(0, 0, 0, now + 1));
    assert s.store.records == map[0 := Record(0, 0, Active, now + 1)];
  }

  lemma AlarmIsRaised(now: int)
    ensures var s := After(SpentState(now), Refresh(2, 0)); CanStep(s, RevokeReused(2)) && s.flows[2] == Revoking(0)
    ensures var s := After(After(SpentState(now), Refresh(2, 0)), RevokeReused(2));
      0 in s.families && 1 in RotatingIn(s.flows, 0)
  {
  }

  /**
   * The program gets there: two refreshes present one token, the second raises
   * the alarm and revokes the family while the first has yet to issue, and the
   * family comes back.
   */
  lemma RevokedFamilyComesBack(now: int) returns (run: Run)
    ensures IsRunFrom(Start(now), run) && |run.steps| == 4 && run.steps[3].RevokeReused?
    ensures AllRevoked(run.systems[4].store.records, 0) && RotatingIn(run.systems[4].flows, 0) != {}
    ensures Revives(run.systems[4], 0)
  {
    var login, first, second, revoke := Login(0, 0, 0, now + 1), Refresh(1, 0), Refresh(2, 0), RevokeReused(2);
    var s0 := Start(now);
    var s1 := After(s0, login);
    assert CanStep(s1, first) && CanStep(SpentState(now), second);
    hide After, Revives, AllRevoked, Consume;
    SpentStateIsReached(now);
    AlarmIsRaised(now);
    var s2 := SpentState(now);
    var s3 := After(s2, second);
    var s4 := After(s3, revoke);
    run := Run([s0, s1, s2, s3, s4], [login, first, second, revoke]);
    assert RunStep(run, 0) && RunStep(run, 1) && RunStep(run, 2) && RunStep(run, 3);
    RevocationReachesEveryone(s3, revoke);
    RevivesIffInFlight(s4, 0);
  }

  // ---------------------------------------------------------------------------
  // Dropping expired records is invisible
  // ---------------------------------------------------------------------------

  datatype Op =
    | Issue(token: Token, userId: UserId, familyId: FamilyId, expiresAt: int)
    | Present(token: Token)
    | RevokeOne(token: Token)
    | RevokeFamily(familyId: FamilyId)
    | RevokeUser(userId: UserId)
    | AskActive(token: Token)
    | Prune
    | Wait(elapsed: nat)

  datatype Answer = Outcome(c: Consumption) | YesNo(yes: bool) | Total(count: nat) | Nothing

  /** The store as it is: expired records go when they are met or swept. */
  function LazyAfter(store: Store, now: int, op: Op): Store {
    var records := store.records;
    match op
    case Issue(token, userId, familyId, expiresAt) => AfterIssue(store, token, userId, familyId, expiresAt, now)
    case Present(token) => store.(records := AfterConsume(records, token, now))
    case RevokeOne(token) => store.(records := AfterRevoke(records, token, now))
    case RevokeFamily(f) => store.(records := AfterSweep(records, Family(f), now))
    case RevokeUser(u) => store.(records := AfterSweep(records, User(u), now))
    case AskActive(token) => store.(records := AfterLookup(records, token, now))
    case Prune => AfterPrune(store, now)
    case Wait(_) => store
  }

  /** A store that never deletes anything, and only changes records that are live. */
  function KeepingAfter(records: Records, now: int, op: Op): Records {
    match op
    case Issue(token, userId, familyId, expiresAt) => records[token := Record(userId, familyId, Active, expiresAt)]
    case Present(token) => if IsActive(records, token, now) then SetPhase(records, token, Rotated) else records
    case RevokeOne(token) => if IsLive(records, token, now) then SetPhase(records, token, Revoked) else records
    case RevokeFamily(f) => RevokeLive(records, Family(f), now)
    case RevokeUser(u) => RevokeLive(records, User(u), now)
    case AskActive(_) => records
    case Prune => records
    case Wait(_) => records
  }

  function SetPhase(records: Records, token: Token, phase: Phase): Records
    requires token in records
  {
    records[token := records[token].(phase := phase)]
  }

  function RevokeLive(records: Records, target: Target, now: int): Records {
    map t | t in records ::
      if Aimed(target, records[t]) && records[t].expiresAt > now then records[t].(phase := Revoked) else records[t]
  }

  function AnswerOf(records: Records, now: int, op: Op): Answer {
    match op
    case Present(token) => Outcome(Consume(records, token, now))
    case AskActive(token) => YesNo(IsActive(records, token, now))
    case RevokeFamily(f) => Total(|Retired(records, Family(f), now)|)
    case _ => Nothing
  }

  function NowAfter(now: int, op: Op): int {
    if op.Wait? then now + op.elapsed else now
  }

  /** What the lazy store still has, the other has too; what it lacks has expired. */
  ghost predicate Agree(lazy: Records, keeping: Records, now: int) {
    && (forall t :: t in lazy ==> t in keeping && keeping[t] == lazy[t])
    && (forall t :: t in keeping && t !in lazy ==> keeping[t].expiresAt <= now)
  }

  lemma {:induction false} StepAgrees(store: Store, keeping: Records, now: int, op: Op)
    requires Agree(store.records, keeping, now)
    ensures AnswerOf(store.records, now, op) == AnswerOf(keeping, now, op)
    ensures Agree(LazyAfter(store, now, op).records, KeepingAfter(keeping, now, op), NowAfter(now, op))
  {
    if op.RevokeFamily? {
      assert Retired(store.records, Family(op.familyId), now) == Retired(keeping, Family(op.familyId), now);
    }
  }

  function LazyRun(store: Store, now: int, ops: seq<Op>): seq<Answer>
    decreases |ops|
  {
    if ops == [] then []
    else [AnswerOf(store.records, now, ops[0])] + LazyRun(LazyAfter(store, now, ops[0]), NowAfter(now, ops[0]), ops[1..])
  }

  function KeepingRun(records: Records, now: int, ops: seq<Op>): seq<Answer>
    decreases |ops|
  {
    if ops == [] then []
    else [AnswerOf(records, now, ops[0])] + KeepingRun(KeepingAfter(records, now, ops[0]), NowAfter(now, ops[0]), ops[1..])
  }

  /** Over every sequence of operations the two stores give the same answers. */
  lemma {:induction false} PruningIsInvisible(store: Store, keeping: Records, now: int, ops: seq<Op>)
    requires Agree(store.records, keeping, now)
    ensures LazyRun(store, now, ops) == KeepingRun(keeping, now, ops)
    decreases |ops|
  {
    hide LazyAfter, KeepingAfter, AnswerOf, Agree;
    if ops != [] {
      StepAgrees(store, keeping, now, ops[0]);
      PruningIsInvisible(LazyAfter(store, now, ops[0]), KeepingAfter(keeping, now, ops[0]), NowAfter(now, ops[0]), ops[1..]);
    }
  }
}
