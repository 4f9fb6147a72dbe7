/**
 * The Postgres store in its own form: a bounded loop of statements, with an
 * arbitrary list of other people's statements running before each of them.
 */
module PostgresIdempotency {
  import opened Options
  import opened IdempotencyProtocol
  import opened IdempotencySql
  import opened IdempotencyInterleaving

  /** What anyone else may run against the table. */
  datatype Statement =
    | Insert(request: Request, id: ClaimId)
    | Takeover(request: Request, id: ClaimId)
    | Complete(claim: Claim, response: Response)
    | Release(claim: Claim)
    | Purge
    | Wait(elapsed: Time)

  datatype State = State(rows: Table, now: Time)

  function AfterOne(cfg: Config, s: State, statement: Statement): State {
    match statement
    case Insert(request, id) => s.(rows := AfterInsert(cfg, s.rows, request, id, s.now))
    case Takeover(request, id) => s.(rows := AfterTakeover(cfg, s.rows, request, id, s.now))
    case Complete(claim, response) => s.(rows := AfterComplete(cfg, s.rows, claim, response, s.now))
    case Release(claim) => s.(rows := AfterRelease(s.rows, claim))
    case Purge => s.(rows := s.rows - ExpiredSlots(s.rows, s.now))
    case Wait(elapsed) => if elapsed > 0.0 then s.(now := s.now + elapsed) else s
  }

  function AfterAll(cfg: Config, s: State, statements: seq<Statement>): State
    decreases |statements|
  {
    if statements == [] then s else AfterAll(cfg, AfterOne(cfg, s, statements[0]), statements[1..])
  }

  /** One of the statements, when its turn comes, changes the row at `slot`. */
  ghost predicate Changes(cfg: Config, s: State, statements: seq<Statement>, slot: Slot)
    decreases |statements|
  {
    && statements != []
    && var next := AfterOne(cfg, s, statements[0]);
       !SameSlot(s.rows, next.rows, slot) || Changes(cfg, next, statements[1..], slot)
  }

  /** Where nothing changes a row it stays, and the clock does not go back. */
  lemma {:induction false} UnchangedSlotStays(cfg: Config, s: State, statements: seq<Statement>, slot: Slot)
    ensures AfterAll(cfg, s, statements).now >= s.now
    ensures !Changes(cfg, s, statements, slot) ==> SameSlot(s.rows, AfterAll(cfg, s, statements).rows, slot)
    decreases |statements|
  {
    if statements != [] {
      var next := AfterOne(cfg, s, statements[0]);
      assert next.now >= s.now;
      hide AfterOne;
      UnchangedSlotStays(cfg, next, statements[1..], slot);
    }
  }

  // ---------------------------------------------------------------------------
  // The three windows of an attempt: before its INSERT, its read and its takeover
  // ---------------------------------------------------------------------------

  function BeforeInsert(cfg: Config, s: State, windows: seq<seq<Statement>>): State
    requires |windows| == 3
  {
    AfterAll(cfg, s, windows[0])
  }

  /** An INSERT that found the slot taken has changed nothing. */
  function BeforeRead(cfg: Config, s: State, windows: seq<seq<Statement>>): State
    requires |windows| == 3
  {
    AfterAll(cfg, BeforeInsert(cfg, s, windows), windows[1])
  }

  function BeforeTakeover(cfg: Config, s: State, windows: seq<seq<Statement>>): State
    requires |windows| == 3
  {
    AfterAll(cfg, BeforeRead(cfg, s, windows), windows[2])
  }

  /** Somebody changed the row between the INSERT and the read, or between the read and the takeover. */
  ghost predicate Disturbed(cfg: Config, s: State, windows: seq<seq<Statement>>, slot: Slot)
    requires |windows| == 3
  {
    || Changes(cfg, BeforeInsert(cfg, s, windows), windows[1], slot)
    || (slot in BeforeRead(cfg, s, windows).rows && Changes(cfg, BeforeRead(cfg, s, windows), windows[2], slot))
  }

  /** What a failed attempt leaves to the next one. */
  function AfterFailed(cfg: Config, s: State, windows: seq<seq<Statement>>, slot: Slot): State
    requires |windows| == 3
  {
    if slot in BeforeRead(cfg, s, windows).rows then BeforeTakeover(cfg, s, windows) else BeforeRead(cfg, s, windows)
  }

  function WindowsOf(others: seq<seq<Statement>>, a: nat): (windows: seq<seq<Statement>>)
    requires 3 * a + 3 <= |others|
    ensures |windows| == 3
  {
    others[3 * a..3 * a + 3]
  }

  /** The state attempt `a` starts from, if all before it failed. */
  function StartOf(cfg: Config, s: State, others: seq<seq<Statement>>, slot: Slot, a: nat): State
    requires 3 * a <= |others|
  {
    if a == 0 then s
    else AfterFailed(cfg, StartOf(cfg, s, others, slot, a - 1), WindowsOf(others, a - 1), slot)
  }

  ghost predicate DisturbedAt(cfg: Config, s: State, others: seq<seq<Statement>>, slot: Slot, a: nat)
    requires 3 * a + 3 <= |others|
  {
    Disturbed(cfg, StartOf(cfg, s, others, slot, a), WindowsOf(others, a), slot)
  }

  lemma StartsAtStart(cfg: Config, s: State, others: seq<seq<Statement>>, slot: Slot)
    ensures StartOf(cfg, s, others, slot, 0) == s
  {
  }

  lemma NextStart(cfg: Config, s: State, others: seq<seq<Statement>>, slot: Slot, a: nat)
    requires 3 * a + 3 <= |others|
    ensures var start, windows := StartOf(cfg, s, others, slot, a), WindowsOf(others, a);
      && StartOf(cfg, s, others, slot, a + 1) == AfterFailed(cfg, start, windows, slot)
      && (DisturbedAt(cfg, s, others, slot, a) <==> Disturbed(cfg, start, windows, slot))
  {
    hide AfterFailed, Disturbed, WindowsOf;
  }

  /** A row that was there at the INSERT and is gone at the read was changed in between. */
  lemma GoneWasChanged(cfg: Config, s: State, windows: seq<seq<Statement>>, slot: Slot)
    requires |windows| == 3 && slot in BeforeInsert(cfg, s, windows).rows && slot !in BeforeRead(cfg, s, windows).rows
    ensures Disturbed(cfg, s, windows, slot)
  {
    hide AfterAll, Changes;
    UnchangedSlotStays(cfg, BeforeInsert(cfg, s, windows), windows[1], slot);
  }

  /** A row that was dead at the read and may not be taken over was changed in between. */
  lemma RevivedWasChanged(cfg: Config, s: State, windows: seq<seq<Statement>>, slot: Slot)
    requires |windows| == 3
    requires var read := BeforeRead(cfg, s, windows); MayTakeOver(cfg, read.rows, slot, read.now)
    requires var last := BeforeTakeover(cfg, s, windows); !MayTakeOver(cfg, last.rows, slot, last.now)
    ensures Disturbed(cfg, s, windows, slot)
  {
    hide AfterAll, Changes;
    UnchangedSlotStays(cfg, BeforeRead(cfg, s, windows), windows[2], slot);
  }

  class PostgresIdempotencyStore {
    const cfg: Config
    var now: Time
    var rows: Table

    /** The program throws a RangeError for a retention or a lease that is not positive. */
    constructor (cfg: Config)
      requires cfg.Valid()
      ensures this.cfg == cfg && rows == map[]
    {
      this.cfg := cfg;
      now := 0.0;
      rows := map[];
    }

    /** Others run their statements, one after the other. */
    method Interfere(statements: seq<Statement>)
      modifies this
      ensures State(rows, now) == AfterAll(cfg, old(State(rows, now)), statements)
    {
      hide AfterOne;
      var i := 0;
      assert statements[0..] == statements;
      while i < |statements|
        invariant 0 <= i <= |statements|
        invariant AfterAll(cfg, State(rows, now), statements[i..]) == AfterAll(cfg, old(State(rows, now)), statements)
      {
        var next := AfterOne(cfg, State(rows, now), statements[i]);
        assert statements[i..][1..] == statements[i + 1..];
        rows, now, i := next.rows, next.now, i + 1;
      }
    }

    /**
     * One claim. `ids` are the three ids drawn, one per attempt; `others` are the
     * statements of everyone else before each of the nine possible statements.
     *
     * Whatever they are, an answer is the atomic claim's answer and change at the
     * claim's last statement, and giving up changes nothing. In every attempt that
     * did not answer, a statement of somebody else changed the row of this key
     * inside the attempt's own window: between its INSERT and its read, or between
     * its read and its takeover.
     */
    method TryClaim(request: Request, ids: seq<ClaimId>, others: seq<seq<Statement>>)
      returns (outcome: Option<ClaimResult>, attempts: nat, ghost before: Table)
      requires |ids| == CLAIM_ATTEMPTS && |others| == 3 * CLAIM_ATTEMPTS
      modifies this
      ensures 1 <= attempts <= CLAIM_ATTEMPTS
      ensures outcome.Some? ==>
        && outcome.value == ResultOfClaim(cfg, Records(before), request, ids[attempts - 1], now)
        && Records(rows) == RecordsAfterClaim(cfg, Records(before), request, ids[attempts - 1], now)
      ensures outcome.None? ==> rows == before && attempts == CLAIM_ATTEMPTS
      ensures outcome.None? ==>
        State(rows, now) == StartOf(cfg, old(State(rows, now)), others, SlotOf(request), CLAIM_ATTEMPTS)
      ensures forall a :: 0 <= a < attempts && (a == attempts - 1 ==> outcome.None?) ==>
        DisturbedAt(cfg, old(State(rows, now)), others, SlotOf(request), a)
    {
      assert CLAIM_ATTEMPTS == 3;
      hide *;
      ghost var slot, start := SlotOf(request), State(rows, now);
      attempts, before, outcome := 0, rows, None;
      StartsAtStart(cfg, start, others, slot);
      while attempts < CLAIM_ATTEMPTS && outcome.None?
        invariant 0 <= attempts <= CLAIM_ATTEMPTS && (outcome.Some? ==> attempts > 0)
        invariant outcome.None? && attempts > 0 ==> rows == before
        invariant outcome.None? ==> State(rows, now) == StartOf(cfg, start, others, slot, attempts)
        invariant outcome.Some? ==>
          && outcome.value == ResultOfClaim(cfg, Records(before), request, ids[attempts - 1], now)
          && Records(rows) == RecordsAfterClaim(cfg, Records(before), request, ids[attempts - 1], now)
        invariant forall a :: 0 <= a < attempts && (a == attempts - 1 ==> outcome.None?) ==>
          DisturbedAt(cfg, start, others, slot, a)
      {
        NextStart(cfg, start, others, slot, attempts);
        outcome, before := RunAttempt(request, ids[attempts], WindowsOf(others, attempts));
        attempts := attempts + 1;
      }
    }

    /** One round of the loop: no outcome means that it goes round again. */
    method RunAttempt(request: Request, id: ClaimId, windows: seq<seq<Statement>>)
      returns (outcome: Option<ClaimResult>, ghost before: Table)
      requires |windows| == 3
      modifies this
      ensures outcome.Some? ==>
        && outcome.value == ResultOfClaim(cfg, Records(before), request, id, now)
        && Records(rows) == RecordsAfterClaim(cfg, Records(before), request, id, now)
      ensures outcome.None? ==>
        && rows == before && State(rows, now) == AfterFailed(cfg, old(State(rows, now)), windows, SlotOf(request))
        && Disturbed(cfg, old(State(rows, now)), windows, SlotOf(request))
    {
      hide Records, ResultOfClaim, RecordsAfterClaim, AfterTakeover, ResultOfRead, Disturbed, AfterAll;
      ghost var slot, from := SlotOf(request), State(rows, now);
      Interfere(windows[0]);
      before := rows;
      InsertIsClaim(cfg, rows, request, id, now);
      var inserted := RunInsert(request, id);
      if inserted {
        return Some(Claimed(Claim(request.scope, request.key, id))), before;
      }

      Interfere(windows[1]);
      before := rows;
      var existing := RunRead(request);
      if existing.None? {
        GoneWasChanged(cfg, from, windows, slot);
        return None, before;
      }
      if RowExpired(existing.value, now) || RowStale(cfg, existing.value, now) {
        Interfere(windows[2]);
        before := rows;
        TakeoverIsClaim(cfg, rows, request, id, now);
        var takenOver := RunTakeover(request, id);
        if takenOver {
          return Some(Claimed(Claim(request.scope, request.key, id))), before;
        }
        RevivedWasChanged(cfg, from, windows, slot);
        return None, before;
      }
      ReadIsClaim(cfg, rows, request, id, now);
      return Some(ResultOfRead(existing.value, request)), before;
    }

    method RunInsert(request: Request, id: ClaimId) returns (inserted: bool)
      modifies this`rows
      ensures inserted <==> SlotOf(request) !in old(rows)
      ensures rows == AfterInsert(cfg, old(rows), request, id, now)
      ensures SlotOf(request) in rows
    {
      inserted := SlotOf(request) !in rows;
      rows := AfterInsert(cfg, rows, request, id, now);
    }

    method RunRead(request: Request) returns (row: Option<Row>)
      ensures row == if SlotOf(request) in rows then Some(rows[SlotOf(request)]) else None
    {
      row := if SlotOf(request) in rows then Some(rows[SlotOf(request)]) else None;
    }

    method RunTakeover(request: Request, id: ClaimId) returns (takenOver: bool)
      modifies this`rows
      ensures takenOver <==> MayTakeOver(cfg, old(rows), SlotOf(request), now)
      ensures rows == AfterTakeover(cfg, old(rows), request, id, now)
    {
      takenOver := MayTakeOver(cfg, rows, SlotOf(request), now);
      rows := AfterTakeover(cfg, rows, request, id, now);
    }
  }
}
