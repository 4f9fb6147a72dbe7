/**
 * The idempotency-key protocol as one atomic store: what a claim, a completion,
 * a release, a purge and the passage of time do to the map of records, and what
 * each answers.
 *
 * Time is a real number of milliseconds. A claim id is a name drawn by
 * `randomUUID`; the only thing assumed about it is that it was never drawn
 * before.
 */
module IdempotencyProtocol {
  import opened Options
  import opened Numerals

  type Time = real
  type ClaimId = nat

  datatype Response = Response(status: int, hasBody: bool, body: Option<string>)
  datatype Request = Request(scope: string, key: string, fingerprint: string)
  datatype Claim = Claim(scope: string, key: string, claimId: ClaimId)

  datatype ClaimResult =
    | Claimed(claim: Claim)
    | Replay(response: Response)
    | StillRunning
    | Mismatch

  datatype Phase = InProgress | Completed

  datatype Record = Record(
    claimId: ClaimId,
    fingerprint: string,
    phase: Phase,
    response: Option<Response>,
    claimedAt: Time,
    expiresAt: Time)

  datatype Config = Config(retention: Time, lease: Time) {
    predicate Valid() {
      retention > 0.0 && lease > 0.0
    }

    /** The shortest time after which an untouched claim may be taken over. */
    function Hold(): (h: Time) {
      if lease < retention then lease else retention
    }
  }

  /** Past retention, or an unfinished claim past its lease. */
  predicate IsDead(cfg: Config, record: Record, now: Time) {
    || record.expiresAt <= now
    || (record.phase == InProgress && record.claimedAt + cfg.lease <= now)
  }

  /** The map key of a record: the scope's length, a colon, then both halves. */
  function RecordKey(scope: string, key: string): string {
    Decimal(|scope|) + ":" + scope + key
  }

  /** The length prefix makes the split unambiguous for every pair of strings. */
  lemma RecordKeyInjective(scope1: string, key1: string, scope2: string, key2: string)
    requires RecordKey(scope1, key1) == RecordKey(scope2, key2)
    ensures scope1 == scope2 && key1 == key2
  {
    var d1, d2 := Decimal(|scope1|), Decimal(|scope2|);
    var k := RecordKey(scope1, key1);
    assert k[|d1|] == ':' && k[|d2|] == ':';
    assert |d1| == |d2|;
    assert d1 == k[..|d1|] == d2;
    ValueOfDecimal(|scope1|);
    ValueOfDecimal(|scope2|);
    var rest := k[|d1| + 1..];
    assert rest == scope1 + key1 && rest == scope2 + key2;
    assert scope1 == rest[..|scope1|] == scope2;
    assert key1 == rest[|scope1|..] == key2;
  }

  // ---------------------------------------------------------------------------
  // The atomic store
  // ---------------------------------------------------------------------------

  /** `issued` is history: every claim id a claim operation has drawn so far. */
  datatype Store = Store(now: Time, records: map<string, Record>, issued: set<ClaimId>)

  datatype Op =
    | TryClaim(request: Request, newId: ClaimId)
    | Complete(claim: Claim, response: Response)
    | Release(claim: Claim)
    | PurgeExpired
    | Tick(elapsed: Time)

  datatype Answer =
    | ClaimAnswer(result: ClaimResult)
    | Accepted(ok: bool)
    | Removed(count: nat)
    | Silence

  const EmptyStore := Store(0.0, map[], {})

  /** The clock never goes back and a claim id is never drawn twice. */
  predicate Enabled(store: Store, op: Op) {
    match op
    case TryClaim(_, newId) => newId !in store.issued
    case Tick(elapsed) => elapsed >= 0.0
    case _ => true
  }

  function FreshRecord(cfg: Config, request: Request, newId: ClaimId, now: Time): Record {
    Record(newId, request.fingerprint, InProgress, None, now, now + cfg.retention)
  }

  /** Whether a claim may take this key: no record, or a dead one. */
  predicate Vacant(cfg: Config, records: map<string, Record>, id: string, now: Time) {
    id !in records || IsDead(cfg, records[id], now)
  }

  function ResultOfClaim(cfg: Config, records: map<string, Record>, request: Request, newId: ClaimId, now: Time)
    : ClaimResult
  {
    var id := RecordKey(request.scope, request.key);
    if Vacant(cfg, records, id, now) then Claimed(Claim(request.scope, request.key, newId))
    else if records[id].fingerprint != request.fingerprint then Mismatch
    else if records[id].phase == Completed && records[id].response.Some? then Replay(records[id].response.value)
    else StillRunning
  }

  function RecordsAfterClaim(cfg: Config, records: map<string, Record>, request: Request, newId: ClaimId, now: Time)
    : map<string, Record>
  {
    var id := RecordKey(request.scope, request.key);
    if Vacant(cfg, records, id, now) then records[id := FreshRecord(cfg, request, newId, now)] else records
  }

  /** Whether `claim` still owns the in-progress record at its key. */
  predicate Owns(records: map<string, Record>, claim: Claim) {
    var id := RecordKey(claim.scope, claim.key);
    id in records && records[id].claimId == claim.claimId && records[id].phase == InProgress
  }

  function RecordsAfterComplete(cfg: Config, records: map<string, Record>, claim: Claim, response: Response, now: Time)
    : map<string, Record>
  {
    if Owns(records, claim) then
      var id := RecordKey(claim.scope, claim.key);
      records[id := records[id].(phase := Completed, response := Some(response), expiresAt := now + cfg.retention)]
    else
      records
  }

  function RecordsAfterRelease(records: map<string, Record>, claim: Claim): map<string, Record> {
    if Owns(records, claim) then records - {RecordKey(claim.scope, claim.key)} else records
  }

  function Expired(records: map<string, Record>, now: Time): (ids: set<string>)
    ensures ids <= records.Keys
  {
    set id | id in records && records[id].expiresAt <= now
  }

  function Next(cfg: Config, store: Store, op: Op): Store {
    match op
    case TryClaim(request, newId) =>
      store.(records := RecordsAfterClaim(cfg, store.records, request, newId, store.now),
             issued := store.issued + {newId})
    case Complete(claim, response) =>
      store.(records := RecordsAfterComplete(cfg, store.records, claim, response, store.now))
    case Release(claim) =>
      store.(records := RecordsAfterRelease(store.records, claim))
    case PurgeExpired =>
      store.(records := store.records - Expired(store.records, store.now))
    case Tick(elapsed) =>
      store.(now := store.now + elapsed)
  }

  function AnswerTo(cfg: Config, store: Store, op: Op): Answer {
    match op
    case TryClaim(request, newId) => ClaimAnswer(ResultOfClaim(cfg, store.records, request, newId, store.now))
    case Complete(claim, _) => Accepted(Owns(store.records, claim))
    case Release(claim) => Accepted(Owns(store.records, claim))
    case PurgeExpired => Removed(|Expired(store.records, store.now)|)
    case Tick(_) => Silence
  }

  // ---------------------------------------------------------------------------
  // Histories
  // ---------------------------------------------------------------------------

  /** One operation together with the answer its caller received. */
  datatype Entry = Entry(op: Op, answer: Answer)

  /** A run: the operations in order, and the store before, between and after them. */
  datatype History = History(stores: seq<Store>, entries: seq<Entry>)

  /** Step `n` was allowed when it ran, did what the store does and answered what it answers. */
  ghost predicate StepAt(cfg: Config, h: History, n: nat)
    requires |h.stores| == |h.entries| + 1 && n < |h.entries|
  {
    && Enabled(h.stores[n], h.entries[n].op)
    && h.stores[n + 1] == Next(cfg, h.stores[n], h.entries[n].op)
    && h.entries[n].answer == AnswerTo(cfg, h.stores[n], h.entries[n].op)
  }

  ghost predicate Legal(cfg: Config, h: History) {
    && |h.stores| == |h.entries| + 1
    && h.stores[0] == EmptyStore
    && forall n :: 0 <= n < |h.entries| ==> StepAt(cfg, h, n)
  }
}

/** The in-process store: a map of records that each call updates in place. */
module MemoryIdempotency {
  import opened Options
  import opened IdempotencyProtocol

  class MemoryIdempotencyStore {
    const cfg: Config
    var records: map<string, Record>

    /** The program throws a RangeError for a retention or a lease that is not positive. */
    constructor (cfg: Config)
      requires cfg.Valid()
      ensures this.cfg == cfg && records == EmptyStore.records
    {
      this.cfg := cfg;
      records := map[];
    }

    method TryClaim(request: Request, now: Time, newId: ClaimId) returns (result: ClaimResult)
      modifies this
      ensures result == ResultOfClaim(cfg, old(records), request, newId, now)
      ensures records == RecordsAfterClaim(cfg, old(records), request, newId, now)
    {
      var id := RecordKey(request.scope, request.key);
      if id !in records || IsDead(cfg, records[id], now) {
        records := records[id := Record(newId, request.fingerprint, InProgress, None, now, now + cfg.retention)];
        return Claimed(Claim(request.scope, request.key, newId));
      }
      var existing := records[id];
      if existing.fingerprint != request.fingerprint {
        return Mismatch;
      }
      if existing.phase == Completed && existing.response.Some? {
        return Replay(existing.response.value);
      }
      return StillRunning;
    }

    method OwnedRecord(claim: Claim) returns (record: Option<Record>)
      ensures record.Some? <==> Owns(records, claim)
      ensures record.Some? ==> record.value == records[RecordKey(claim.scope, claim.key)]
    {
      var id := RecordKey(claim.scope, claim.key);
      if id !in records || records[id].claimId != claim.claimId || records[id].phase != InProgress {
        return None;
      }
      return Some(records[id]);
    }

    method Complete(claim: Claim, response: Response, now: Time) returns (ok: bool)
      modifies this
      ensures ok == Owns(old(records), claim)
      ensures records == RecordsAfterComplete(cfg, old(records), claim, response, now)
    {
      var record := OwnedRecord(claim);
      if record.None? {
        return false;
      }
      var id := RecordKey(claim.scope, claim.key);
      records := records[id := record.value.(phase := Completed, response := Some(response))];
      records := records[id := records[id].(expiresAt := now + cfg.retention)];
      return true;
    }

    method Release(claim: Claim) returns (ok: bool)
      modifies this
      ensures ok == Owns(old(records), claim)
      ensures records == RecordsAfterRelease(old(records), claim)
    {
      var record := OwnedRecord(claim);
      if record.None? {
        return false;
      }
      records := records - {RecordKey(claim.scope, claim.key)};
      return true;
    }

    /** Walks the map in an arbitrary order, deleting as it goes. */
    method Purge(now: Time) returns (purged: nat)
      modifies this
      ensures purged == |Expired(old(records), now)|
      ensures records == old(records) - Expired(old(records), now)
    {
      hide Expired;
      ghost var before := records;
      ghost var gone: set<string> := {};
      var todo := records.Keys;
      purged := 0;
      while todo != {}
        invariant todo <= before.Keys
        invariant gone == Expired(before, now) - todo
        invariant purged == |gone|
        invariant records == before - gone
        decreases todo
      {
        var id :| id in todo;
        assert records[id] == before[id];
        SweepOne(before, now, todo, gone, id);
        if records[id].expiresAt <= now {
          records := records - {id};
          purged := purged + 1;
          gone := gone + {id};
        }
        todo := todo - {id};
      }
    }
  }

  lemma SweepOne(before: map<string, Record>, now: Time, todo: set<string>, gone: set<string>, id: string)
    requires id in todo && id in before && gone == Expired(before, now) - todo
    ensures before[id].expiresAt <= now ==>
      && gone + {id} == Expired(before, now) - (todo - {id})
      && before - gone - {id} == before - (gone + {id})
    ensures before[id].expiresAt > now ==> gone == Expired(before, now) - (todo - {id})
  {
  }
}
