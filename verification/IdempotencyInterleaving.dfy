/**
 * Any number of Postgres claims running at once, statement by statement, with
 * completions, releases, purges and the clock free to step in anywhere between
 * two statements of the same claim.
 *
 * The state carries history beside the table: which ids were drawn and spent,
 * and a log of every write with the slots it changed, so that a claim's retries
 * can be charged to the writes of others.
 */
module IdempotencyInterleaving {
  import opened Options
  import opened IdempotencyProtocol
  import opened IdempotencySql

  const CLAIM_ATTEMPTS: nat := 3

  datatype Pc = AtInsert | AtRead | AtTakeover | Answered(result: ClaimResult) | Contended

  /**
   * One claim call. `begun`, `insertMark` and `lastMark` are positions in the
   * write log: at its first INSERT, at the INSERT of the current attempt, and at
   * its most recent statement.
   */
  datatype Call = Call(
    request: Request, attempt: nat, claimId: ClaimId, pc: Pc, begun: nat, insertMark: nat, lastMark: nat)

  datatype Writer = ByCall(call: nat) | ByAnother
  datatype Write = Write(writer: Writer, slots: set<Slot>)

  datatype Db = Db(
    now: Time, rows: Table, calls: map<nat, Call>, drawn: set<ClaimId>, spent: set<ClaimId>, log: seq<Write>)

  const EmptyDb := Db(0.0, map[], map[], {}, {}, [])

  /** `nextId` is the id drawn if the loop goes round again. */
  datatype Label =
    | Begin(call: nat, request: Request, id: ClaimId)
    | RunInsert(call: nat)
    | RunRead(call: nat, nextId: ClaimId)
    | RunTakeover(call: nat, nextId: ClaimId)
    | RunComplete(claim: Claim, response: Response)
    | RunRelease(claim: Claim)
    | RunPurge
    | Elapse(elapsed: Time)

  predicate Running(c: Call) {
    c.pc == AtInsert || c.pc == AtRead || c.pc == AtTakeover
  }

  predicate At(db: Db, call: nat, pc: Pc) {
    call in db.calls && db.calls[call].pc == pc
  }

  predicate CanRun(db: Db, l: Label) {
    match l
    case Begin(call, _, id) => call !in db.calls && id !in db.drawn
    case RunInsert(call) => At(db, call, AtInsert)
    case RunRead(call, nextId) => At(db, call, AtRead) && nextId !in db.drawn
    case RunTakeover(call, nextId) => At(db, call, AtTakeover) && nextId !in db.drawn
    case Elapse(elapsed) => elapsed >= 0.0
    case _ => true
  }

  // ---------------------------------------------------------------------------
  // One statement
  // ---------------------------------------------------------------------------

  /** The call answers, having written `rows` under its id. */
  function AnswerCall(db: Db, n: nat, rows: Table, log: seq<Write>, result: ClaimResult): Db
    requires n in db.calls
  {
    var c := db.calls[n];
    db.(rows := rows, log := log, spent := db.spent + {c.claimId},
        calls := db.calls[n := c.(pc := Answered(result), lastMark := |db.log|)])
  }

  /** The call goes round the loop again, or gives up after the last attempt. */
  function Retry(db: Db, n: nat, nextId: ClaimId): Db
    requires n in db.calls
  {
    var c := db.calls[n];
    if c.attempt < CLAIM_ATTEMPTS then
      db.(drawn := db.drawn + {nextId},
          calls := db.calls[n := c.(attempt := c.attempt + 1, claimId := nextId, pc := AtInsert, lastMark := |db.log|)])
    else
      db.(calls := db.calls[n := c.(pc := Contended, lastMark := |db.log|)])
  }

  function AfterRunInsert(cfg: Config, db: Db, n: nat): Db
    requires n in db.calls
  {
    var c := db.calls[n];
    var slot := SlotOf(c.request);
    var c' := if c.attempt == 1 then c.(begun := |db.log|) else c;
    var db' := db.(calls := db.calls[n := c']);
    if slot !in db.rows then
      AnswerCall(db', n, AfterInsert(cfg, db.rows, c.request, c.claimId, db.now), db.log + [Write(ByCall(n), {slot})],
             Claimed(Claim(c.request.scope, c.request.key, c.claimId)))
    else
      db'.(calls := db'.calls[n := c'.(pc := AtRead, insertMark := |db.log|, lastMark := |db.log|)])
  }

  function AfterRunRead(cfg: Config, db: Db, n: nat, nextId: ClaimId): Db
    requires n in db.calls
  {
    var c := db.calls[n];
    var slot := SlotOf(c.request);
    if slot !in db.rows then Retry(db, n, nextId)
    else if RowExpired(db.rows[slot], db.now) || RowStale(cfg, db.rows[slot], db.now) then
      db.(calls := db.calls[n := c.(pc := AtTakeover, lastMark := |db.log|)])
    else AnswerCall(db, n, db.rows, db.log, ResultOfRead(db.rows[slot], c.request))
  }

  function AfterRunTakeover(cfg: Config, db: Db, n: nat, nextId: ClaimId): Db
    requires n in db.calls
  {
    var c := db.calls[n];
    var slot := SlotOf(c.request);
    if MayTakeOver(cfg, db.rows, slot, db.now) then
      AnswerCall(db, n, AfterTakeover(cfg, db.rows, c.request, c.claimId, db.now), db.log + [Write(ByCall(n), {slot})],
             Claimed(Claim(c.request.scope, c.request.key, c.claimId)))
    else
      Retry(db, n, nextId)
  }

  function After(cfg: Config, db: Db, l: Label): Db
    requires CanRun(db, l)
  {
    match l
    case Begin(call, request, id) =>
      db.(calls := db.calls[call := Call(request, 1, id, AtInsert, |db.log|, |db.log|, |db.log|)],
          drawn := db.drawn + {id})
    case RunInsert(call) => AfterRunInsert(cfg, db, call)
    case RunRead(call, nextId) => AfterRunRead(cfg, db, call, nextId)
    case RunTakeover(call, nextId) => AfterRunTakeover(cfg, db, call, nextId)
    case RunComplete(claim, response) =>
      db.(rows := AfterComplete(cfg, db.rows, claim, response, db.now),
          log := db.log + [Write(ByAnother, if Holds(db.rows, claim) then {SlotOfClaim(claim)} else {})])
    case RunRelease(claim) =>
      db.(rows := AfterRelease(db.rows, claim),
          log := db.log + [Write(ByAnother, if Holds(db.rows, claim) then {SlotOfClaim(claim)} else {})])
    case RunPurge =>
      db.(rows := db.rows - ExpiredSlots(db.rows, db.now),
          log := db.log + [Write(ByAnother, ExpiredSlots(db.rows, db.now))])
    case Elapse(elapsed) => db.(now := db.now + elapsed)
  }

  // ---------------------------------------------------------------------------
  // Every step against the atomic store
  // ---------------------------------------------------------------------------

  /** The table as the atomic store sees it; the ids it has drawn are those that were spent. */
  ghost function StoreOf(db: Db): Store {
    Store(db.now, Records(db.rows), db.spent)
  }

  /** The atomic operation a step stands for, if it takes effect there. */
  function Effect(cfg: Config, db: Db, l: Label): Option<Op>
    requires CanRun(db, l)
  {
    match l
    case Begin(_, _, _) => None
    case RunInsert(n) =>
      var c := db.calls[n];
      if SlotOf(c.request) !in db.rows then Some(TryClaim(c.request, c.claimId)) else None
    case RunRead(n, _) =>
      var c := db.calls[n];
      if SlotOf(c.request) in db.rows && !MayTakeOver(cfg, db.rows, SlotOf(c.request), db.now)
      then Some(TryClaim(c.request, c.claimId)) else None
    case RunTakeover(n, _) =>
      var c := db.calls[n];
      if MayTakeOver(cfg, db.rows, SlotOf(c.request), db.now) then Some(TryClaim(c.request, c.claimId)) else None
    case RunComplete(claim, response) => Some(Complete(claim, Normalise(response)))
    case RunRelease(claim) => Some(Release(claim))
    case RunPurge => Some(PurgeExpired)
    case Elapse(elapsed) => Some(Tick(elapsed))
  }

  /** What the caller of a step is told, in the step's own terms. */
  function Reply(cfg: Config, db: Db, l: Label): Answer
    requires CanRun(db, l)
  {
    match l
    case RunComplete(claim, _) => Accepted(Holds(db.rows, claim))
    case RunRelease(claim) => Accepted(Holds(db.rows, claim))
    case RunPurge => Removed(|ExpiredSlots(db.rows, db.now)|)
    case Elapse(_) => Silence
    case Begin(_, _, _) => Silence
    case _ =>
      var after := After(cfg, db, l);
      if l.call in after.calls && after.calls[l.call].pc.Answered?
      then ClaimAnswer(after.calls[l.call].pc.result) else Silence
  }

  /** Ids of calls still running are drawn, unspent and all different. */
  ghost predicate IdsInv(db: Db) {
    && db.spent <= db.drawn
    && (forall n :: n in db.calls && Running(db.calls[n]) ==>
          db.calls[n].claimId in db.drawn && db.calls[n].claimId !in db.spent)
    && (forall m, n :: m in db.calls && n in db.calls && m != n && Running(db.calls[m]) && Running(db.calls[n]) ==>
          db.calls[m].claimId != db.calls[n].claimId)
  }

  /**
   * A step that takes effect is exactly one atomic operation, with the same
   * answer and the same change; a step that does not leaves the table alone and
   * answers nobody.
   */
  lemma StepRefines(cfg: Config, db: Db, l: Label)
    requires CanRun(db, l) && IdsInv(db)
    ensures var effect := Effect(cfg, db, l);
      if effect.Some? then
        && Enabled(StoreOf(db), effect.value)
        && StoreOf(After(cfg, db, l)) == Next(cfg, StoreOf(db), effect.value)
        && Reply(cfg, db, l) == AnswerTo(cfg, StoreOf(db), effect.value)
      else
        && After(cfg, db, l).rows == db.rows
        && StoreOf(After(cfg, db, l)) == StoreOf(db)
        && Reply(cfg, db, l) == Silence
  {
    hide RecordKey, Records, ResultOfClaim, RecordsAfterClaim, Owns, Expired, RecordsAfterComplete, RecordsAfterRelease;
    hide AfterInsert, AfterTakeover, AfterComplete, AfterRelease, ExpiredSlots, ResultOfRead, Holds;
    match l
    case Begin(_, _, _) =>
    case RunInsert(n) => InsertIsClaim(cfg, db.rows, db.calls[n].request, db.calls[n].claimId, db.now);
    case RunRead(n, _) =>
      if Effect(cfg, db, l).Some? {
        ReadIsClaim(cfg, db.rows, db.calls[n].request, db.calls[n].claimId, db.now);
      }
    case RunTakeover(n, _) => TakeoverIsClaim(cfg, db.rows, db.calls[n].request, db.calls[n].claimId, db.now);
    case RunComplete(claim, response) =>
      CompleteIsComplete(cfg, db.rows, claim, response, db.now);
      HoldsIsOwns(db.rows, claim);
    case RunRelease(claim) =>
      ReleaseIsRelease(db.rows, claim);
      HoldsIsOwns(db.rows, claim);
    case RunPurge => PurgeIsPurge(db.rows, db.now);
    case Elapse(_) =>
  }

  lemma StepKeepsIds(cfg: Config, db: Db, l: Label)
    requires CanRun(db, l) && IdsInv(db)
    ensures IdsInv(After(cfg, db, l))
  {
    hide AfterInsert, AfterTakeover, AfterComplete, AfterRelease, ExpiredSlots, MayTakeOver, ResultOfRead;
  }

  // ---------------------------------------------------------------------------
  // Runs
  // ---------------------------------------------------------------------------

  datatype Run = Run(dbs: seq<Db>, labels: seq<Label>)

  ghost predicate RunStep(cfg: Config, run: Run, n: nat)
    requires |run.dbs| == |run.labels| + 1 && n < |run.labels|
  {
    CanRun(run.dbs[n], run.labels[n]) && run.dbs[n + 1] == After(cfg, run.dbs[n], run.labels[n])
  }

  /** Any interleaving of statements, from an empty table. */
  ghost predicate IsRun(cfg: Config, run: Run) {
    && |run.dbs| == |run.labels| + 1
    && run.dbs[0] == EmptyDb
    && forall n :: 0 <= n < |run.labels| ==> RunStep(cfg, run, n)
  }

  /** The atomic operations that took effect in the first `n` steps, with the answers given. */
  ghost function HistoryOf(cfg: Config, run: Run, n: nat): (h: History)
    requires IsRun(cfg, run) && n <= |run.labels|
    ensures |h.stores| == |h.entries| + 1
  {
    if n == 0 then History([EmptyStore], [])
    else
      var h := HistoryOf(cfg, run, n - 1);
      assert RunStep(cfg, run, n - 1);
      var effect := Effect(cfg, run.dbs[n - 1], run.labels[n - 1]);
      if effect.None? then h
      else History(h.stores + [StoreOf(run.dbs[n])],
                   h.entries + [Entry(effect.value, Reply(cfg, run.dbs[n - 1], run.labels[n - 1]))])
  }

  lemma {:induction false} IdsHold(cfg: Config, run: Run, n: nat)
    requires IsRun(cfg, run) && n <= |run.labels|
    ensures IdsInv(run.dbs[n])
  {
    hide After, CanRun;
    if n > 0 {
      IdsHold(cfg, run, n - 1);
      assert RunStep(cfg, run, n - 1);
      StepKeepsIds(cfg, run.dbs[n - 1], run.labels[n - 1]);
    }
  }

  /**
   * Refinement: under every interleaving, the answers given are those of one
   * legal run of the atomic store, which ends with the records the table holds.
   */
  lemma {:induction false} RunRefinesStore(cfg: Config, run: Run, n: nat)
    requires IsRun(cfg, run) && n <= |run.labels|
    ensures var h := HistoryOf(cfg, run, n);
      Legal(cfg, h) && h.stores[|h.entries|] == StoreOf(run.dbs[n])
  {
    hide After, Effect, Reply, Next, AnswerTo, Enabled, CanRun, StoreOf, IdsInv;
    if n == 0 {
      EmptyTableIsEmptyStore();
    } else {
      RunRefinesStore(cfg, run, n - 1);
      IdsHold(cfg, run, n - 1);
      assert RunStep(cfg, run, n - 1);
      StepRefines(cfg, run.dbs[n - 1], run.labels[n - 1]);
      LegalExtends(cfg, HistoryOf(cfg, run, n - 1), HistoryOf(cfg, run, n));
    }
  }

  lemma EmptyTableIsEmptyStore()
    ensures StoreOf(EmptyDb) == EmptyStore
  {
    assert Records(map[]) == map[];
  }

  lemma LegalExtends(cfg: Config, h: History, more: History)
    requires Legal(cfg, h)
    requires more == h || (
      && |more.entries| == |h.entries| + 1 && |more.stores| == |h.stores| + 1
      && more.stores[..|h.stores|] == h.stores && more.entries[..|h.entries|] == h.entries
      && StepAt(cfg, more, |h.entries|))
    ensures Legal(cfg, more)
  {
    hide Next, AnswerTo, Enabled;
    if more != h {
      assert more.stores[0] == h.stores[0];
      forall n | 0 <= n < |more.entries|
        ensures StepAt(cfg, more, n)
      {
        if n < |h.entries| {
          assert StepAt(cfg, h, n);
          assert more.stores[n] == h.stores[n] && more.stores[n + 1] == h.stores[n + 1];
          assert more.entries[n] == h.entries[n];
        }
      }
    }
  }
}
