/**
 * The Postgres store: six SQL statements, each one atomic step on a table keyed
 * by (scope, key), and the abstraction that reads that table as the atomic
 * store's map of records.
 */
module IdempotencySql {
  import opened Options
  import opened IdempotencyProtocol

  datatype Slot = Slot(scope: string, key: string)

  datatype Row = Row(
    claimId: ClaimId,
    fingerprint: string,
    phase: Phase,
    status: Option<int>,
    body: Option<string>,
    hasBody: bool,
    claimedAt: Time,
    expiresAt: Time)

  type Table = map<Slot, Row>

  function SlotOf(request: Request): Slot {
    Slot(request.scope, request.key)
  }

  function SlotOfClaim(claim: Claim): Slot {
    Slot(claim.scope, claim.key)
  }

  // ---------------------------------------------------------------------------
  // The statements
  // ---------------------------------------------------------------------------

  /** INSERT ... ON CONFLICT DO NOTHING; it returns a row exactly when the slot was free. */
  function AfterInsert(cfg: Config, rows: Table, request: Request, id: ClaimId, now: Time): Table {
    var slot := SlotOf(request);
    if slot in rows then rows
    else rows[slot := Row(id, request.fingerprint, InProgress, None, None, false, now, now + cfg.retention)]
  }

  predicate RowExpired(row: Row, now: Time) {
    row.expiresAt <= now
  }

  predicate RowStale(cfg: Config, row: Row, now: Time) {
    row.phase == InProgress && row.claimedAt + cfg.lease <= now
  }

  /** The WHERE clause of the takeover UPDATE. */
  predicate MayTakeOver(cfg: Config, rows: Table, slot: Slot, now: Time) {
    slot in rows && (RowExpired(rows[slot], now) || RowStale(cfg, rows[slot], now))
  }

  function AfterTakeover(cfg: Config, rows: Table, request: Request, id: ClaimId, now: Time): Table {
    var slot := SlotOf(request);
    if MayTakeOver(cfg, rows, slot, now) then
      rows[slot := rows[slot].(claimId := id, fingerprint := request.fingerprint, phase := InProgress,
                               status := None, body := None, hasBody := false,
                               claimedAt := now, expiresAt := now + cfg.retention)]
    else
      rows
  }

  /** The WHERE clause shared by the completing UPDATE and the releasing DELETE. */
  predicate Holds(rows: Table, claim: Claim) {
    var slot := SlotOfClaim(claim);
    slot in rows && rows[slot].claimId == claim.claimId && rows[slot].phase == InProgress
  }

  function AfterComplete(cfg: Config, rows: Table, claim: Claim, response: Response, now: Time): Table {
    if Holds(rows, claim) then
      var slot := SlotOfClaim(claim);
      rows[slot := rows[slot].(phase := Completed, status := Some(response.status),
                               body := StoredBody(response), hasBody := response.hasBody,
                               expiresAt := now + cfg.retention)]
    else
      rows
  }

  /** `undefined` is written as the JSON value null; a response without a body writes SQL NULL. */
  function StoredBody(response: Response): Option<string> {
    if !response.hasBody then None
    else if response.body.None? then Some("null")
    else response.body
  }

  function AfterRelease(rows: Table, claim: Claim): Table {
    if Holds(rows, claim) then rows - {SlotOfClaim(claim)} else rows
  }

  function ExpiredSlots(rows: Table, now: Time): set<Slot> {
    set slot | slot in rows && RowExpired(rows[slot], now)
  }

  /** The response a completed row replays. */
  function ToRecordedResponse(status: int, row: Row): Response {
    if row.hasBody then Response(status, true, row.body) else Response(status, false, None)
  }

  /** What the claim answers once it has read a live row. */
  function ResultOfRead(row: Row, request: Request): ClaimResult {
    if row.fingerprint != request.fingerprint then Mismatch
    else if row.phase == Completed && row.status.Some? then Replay(ToRecordedResponse(row.status.value, row))
    else StillRunning
  }

  /** Two tables hold the same row, or none, at `slot`. */
  ghost predicate SameSlot(a: Table, b: Table, slot: Slot) {
    (slot in a <==> slot in b) && (slot in a ==> a[slot] == b[slot])
  }

  // ---------------------------------------------------------------------------
  // The abstraction
  // ---------------------------------------------------------------------------

  /** A response as it comes back out of the table. */
  function Normalise(response: Response): Response {
    Response(response.status, response.hasBody, StoredBody(response))
  }

  /** Only a body without its flag, or a flag without its body, is changed by storage. */
  lemma NormaliseIsIdentityIff(response: Response)
    ensures Normalise(response) == response <==> (response.hasBody <==> response.body.Some?)
  {
  }

  function RowRecord(row: Row): Record {
    Record(row.claimId, row.fingerprint, row.phase,
           if row.status.Some? then Some(ToRecordedResponse(row.status.value, row)) else None,
           row.claimedAt, row.expiresAt)
  }

  function SlotKey(slot: Slot): string {
    RecordKey(slot.scope, slot.key)
  }

  lemma SlotKeysAreDistinct()
    ensures forall a, b :: SlotKey(a) == SlotKey(b) ==> a == b
  {
    forall a, b | SlotKey(a) == SlotKey(b)
      ensures a == b
    {
      RecordKeyInjective(a.scope, a.key, b.scope, b.key);
    }
  }

  /** The table read as the atomic store's records, under the length-prefixed keys. */
  ghost function Records(rows: Table): (records: map<string, Record>)
    ensures forall slot :: slot in rows ==> SlotKey(slot) in records && records[SlotKey(slot)] == RowRecord(rows[slot])
    ensures forall slot :: SlotKey(slot) in records ==> slot in rows
    ensures forall id :: id in records ==> exists slot :: slot in rows && SlotKey(slot) == id
  {
    SlotKeysAreDistinct();
    map slot | slot in rows :: SlotKey(slot) := RowRecord(rows[slot])
  }

  lemma RecordsAfterUpdate(rows: Table, slot: Slot, row: Row)
    ensures Records(rows[slot := row]) == Records(rows)[SlotKey(slot) := RowRecord(row)]
  {
    hide RecordKey, Records;
    SlotKeysAreDistinct();
    var left, right := Records(rows[slot := row]), Records(rows)[SlotKey(slot) := RowRecord(row)];
    forall id | id in left
      ensures id in right && left[id] == right[id]
    {
      var s :| s in rows[slot := row] && SlotKey(s) == id;
    }
    forall id | id in right
      ensures id in left
    {
      if id != SlotKey(slot) {
        var s :| s in rows && SlotKey(s) == id;
        assert s in rows[slot := row];
      }
    }
  }

  lemma RecordsAfterDelete(rows: Table, slots: set<Slot>)
    ensures Records(rows - slots) == Records(rows) - (set slot | slot in slots :: SlotKey(slot))
  {
    hide RecordKey, Records;
    SlotKeysAreDistinct();
    var keys := set slot | slot in slots :: SlotKey(slot);
    var left, right := Records(rows - slots), Records(rows) - keys;
    forall id | id in left
      ensures id in right && left[id] == right[id]
    {
      var s :| s in rows - slots && SlotKey(s) == id;
      assert s in rows && s !in slots;
    }
    forall id | id in right
      ensures id in left
    {
      var s :| s in rows && SlotKey(s) == id;
      assert s !in slots;
      assert s in rows - slots;
    }
  }

  lemma {:induction false} KeysCountSlots(slots: set<Slot>)
    ensures |set slot | slot in slots :: SlotKey(slot)| == |slots|
  {
    hide RecordKey, Records;
    if slots != {} {
      SlotKeysAreDistinct();
      var s :| s in slots;
      KeysCountSlots(slots - {s});
      var rest := set slot | slot in slots - {s} :: SlotKey(slot);
      assert (set slot | slot in slots :: SlotKey(slot)) == rest + {SlotKey(s)};
    }
  }

  // ---------------------------------------------------------------------------
  // Each statement against the atomic store
  // ---------------------------------------------------------------------------

  /** An INSERT into a free slot is the atomic claim; any other INSERT changes nothing. */
  lemma InsertIsClaim(cfg: Config, rows: Table, request: Request, id: ClaimId, now: Time)
    ensures SlotOf(request) !in rows ==>
      && ResultOfClaim(cfg, Records(rows), request, id, now) == Claimed(Claim(request.scope, request.key, id))
      && Records(AfterInsert(cfg, rows, request, id, now)) == RecordsAfterClaim(cfg, Records(rows), request, id, now)
    ensures SlotOf(request) in rows ==> AfterInsert(cfg, rows, request, id, now) == rows
  {
    hide RecordKey, Records;
    var slot := SlotOf(request);
    if slot !in rows {
      assert SlotKey(slot) !in Records(rows);
      RecordsAfterUpdate(rows, slot, AfterInsert(cfg, rows, request, id, now)[slot]);
    }
  }

  /** A read of a live row is the atomic claim, which leaves the records as they are. */
  lemma ReadIsClaim(cfg: Config, rows: Table, request: Request, id: ClaimId, now: Time)
    requires SlotOf(request) in rows && !MayTakeOver(cfg, rows, SlotOf(request), now)
    ensures ResultOfClaim(cfg, Records(rows), request, id, now) == ResultOfRead(rows[SlotOf(request)], request)
    ensures RecordsAfterClaim(cfg, Records(rows), request, id, now) == Records(rows)
  {
    hide RecordKey, Records;
    assert SlotKey(SlotOf(request)) in Records(rows);
  }

  /** A takeover whose guard holds is the atomic claim; any other takeover changes nothing. */
  lemma TakeoverIsClaim(cfg: Config, rows: Table, request: Request, id: ClaimId, now: Time)
    ensures MayTakeOver(cfg, rows, SlotOf(request), now) ==>
      && ResultOfClaim(cfg, Records(rows), request, id, now) == Claimed(Claim(request.scope, request.key, id))
      && Records(AfterTakeover(cfg, rows, request, id, now)) == RecordsAfterClaim(cfg, Records(rows), request, id, now)
    ensures !MayTakeOver(cfg, rows, SlotOf(request), now) ==> AfterTakeover(cfg, rows, request, id, now) == rows
  {
    hide RecordKey, Records;
    var slot := SlotOf(request);
    if MayTakeOver(cfg, rows, slot, now) {
      assert SlotKey(slot) in Records(rows);
      RecordsAfterUpdate(rows, slot, AfterTakeover(cfg, rows, request, id, now)[slot]);
    }
  }

  lemma HoldsIsOwns(rows: Table, claim: Claim)
    ensures Holds(rows, claim) <==> Owns(Records(rows), claim)
  {
    hide RecordKey, Records;
    var slot := SlotOfClaim(claim);
    if SlotKey(slot) in Records(rows) {
      assert slot in rows;
    }
  }

  lemma CompleteIsComplete(cfg: Config, rows: Table, claim: Claim, response: Response, now: Time)
    ensures Records(AfterComplete(cfg, rows, claim, response, now))
      == RecordsAfterComplete(cfg, Records(rows), claim, Normalise(response), now)
  {
    hide RecordKey, Records;
    HoldsIsOwns(rows, claim);
    if Holds(rows, claim) {
      var slot := SlotOfClaim(claim);
      RecordsAfterUpdate(rows, slot, AfterComplete(cfg, rows, claim, response, now)[slot]);
    }
  }

  lemma ReleaseIsRelease(rows: Table, claim: Claim)
    ensures Records(AfterRelease(rows, claim)) == RecordsAfterRelease(Records(rows), claim)
  {
    hide RecordKey, Records;
    HoldsIsOwns(rows, claim);
    if Holds(rows, claim) {
      var slot := SlotOfClaim(claim);
      RecordsAfterDelete(rows, {slot});
      assert (set s | s in {slot} :: SlotKey(s)) == {SlotKey(slot)};
    }
  }

  lemma PurgeIsPurge(rows: Table, now: Time)
    ensures Records(rows - ExpiredSlots(rows, now)) == Records(rows) - Expired(Records(rows), now)
    ensures |ExpiredSlots(rows, now)| == |Expired(Records(rows), now)|
  {
    hide RecordKey, Records;
    var slots := ExpiredSlots(rows, now);
    RecordsAfterDelete(rows, slots);
    KeysCountSlots(slots);
    var keys := set slot | slot in slots :: SlotKey(slot);
    forall id | id in Expired(Records(rows), now)
      ensures id in keys
    {
      var s :| s in rows && SlotKey(s) == id;
      assert s in slots;
    }
    assert keys == Expired(Records(rows), now);
  }
}
