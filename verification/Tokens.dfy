/**
 * The refresh-token store: retired tokens are kept until they expire, expired
 * ones are treated as absent and dropped lazily or in sweeps.
 */
module TokenStore {
  type Token = nat
  type UserId = nat
  type FamilyId = nat

  datatype Phase = Active | Rotated | Revoked
  datatype Record = Record(userId: UserId, familyId: FamilyId, phase: Phase, expiresAt: int)
  type Records = map<Token, Record>

  datatype Store = Store(records: Records, lastPrunedAt: int)

  datatype Consumption =
    | Spent(userId: UserId, familyId: FamilyId)
    | Reuse(userId: UserId, familyId: FamilyId)
    | WasRevoked(userId: UserId, familyId: FamilyId)
    | Unknown

  const PRUNE_INTERVAL_MS: int := 60_000

  predicate IsLive(records: Records, token: Token, now: int) {
    token in records && records[token].expiresAt > now
  }

  /** Looking a token up drops it if it has expired. */
  function AfterLookup(records: Records, token: Token, now: int): Records {
    if token in records && records[token].expiresAt <= now then records - {token} else records
  }

  function ExpiredTokens(records: Records, now: int): (tokens: set<Token>)
    ensures tokens <= records.Keys
  {
    set t | t in records && records[t].expiresAt <= now
  }

  function AfterPrune(store: Store, now: int): Store {
    Store(store.records - ExpiredTokens(store.records, now), now)
  }

  function AfterIssue(store: Store, token: Token, userId: UserId, familyId: FamilyId, expiresAt: int, now: int): Store {
    var swept := if now - store.lastPrunedAt >= PRUNE_INTERVAL_MS then AfterPrune(store, now) else store;
    swept.(records := swept.records[token := Record(userId, familyId, Active, expiresAt)])
  }

  function Consume(records: Records, token: Token, now: int): Consumption {
    if !IsLive(records, token, now) then Unknown
    else
      var r := records[token];
      match r.phase
      case Active => Spent(r.userId, r.familyId)
      case Rotated => Reuse(r.userId, r.familyId)
      case Revoked => WasRevoked(r.userId, r.familyId)
  }

  function AfterConsume(records: Records, token: Token, now: int): Records {
    var kept := AfterLookup(records, token, now);
    if token in kept && kept[token].phase == Active then kept[token := kept[token].(phase := Rotated)] else kept
  }

  function AfterRevoke(records: Records, token: Token, now: int): Records {
    var kept := AfterLookup(records, token, now);
    if token in kept then kept[token := kept[token].(phase := Revoked)] else kept
  }

  /** Whom a sweep is aimed at. */
  datatype Target = Family(f: FamilyId) | User(u: UserId)

  predicate Aimed(target: Target, record: Record) {
    match target
    case Family(f) => record.familyId == f
    case User(u) => record.userId == u
  }

  /** Everything the sweep is aimed at is revoked, or dropped if it has expired. */
  function AfterSweep(records: Records, target: Target, now: int): Records {
    map t | t in records && !(Aimed(target, records[t]) && records[t].expiresAt <= now) ::
      if Aimed(target, records[t]) then records[t].(phase := Revoked) else records[t]
  }

  /** The tokens a sweep newly retires. */
  function Retired(records: Records, target: Target, now: int): (tokens: set<Token>)
    ensures tokens <= records.Keys
  {
    set t | t in records && Aimed(target, records[t]) && records[t].expiresAt > now && records[t].phase != Revoked
  }

  predicate IsActive(records: Records, token: Token, now: int) {
    IsLive(records, token, now) && records[token].phase == Active
  }
}

/** The store in place: a map whose sweeps delete and update while they walk it. */
module InMemoryTokens {
  import opened Options
  import opened TokenStore

  class InMemoryTokenStore {
    var records: Records
    var lastPrunedAt: int

    constructor (now: int)
      ensures records == map[] && lastPrunedAt == now
    {
      records, lastPrunedAt := map[], now;
    }

    method Live(token: Token, now: int) returns (record: Option<Record>)
      modifies this`records
      ensures records == AfterLookup(old(records), token, now)
      ensures record == if IsLive(old(records), token, now) then Some(old(records)[token]) else None
    {
      if token !in records {
        return None;
      }
      if records[token].expiresAt <= now {
        records := records - {token};
        return None;
      }
      return Some(records[token]);
    }

    method Prune(now: int) returns (dropped: nat)
      modifies this
      ensures Store(records, lastPrunedAt) == AfterPrune(old(Store(records, lastPrunedAt)), now)
      ensures dropped == |ExpiredTokens(old(records), now)|
    {
      hide ExpiredTokens;
      var kept;
      kept, dropped := DropExpired(records, now);
      records := kept;
      lastPrunedAt := now;
    }

    method Issue(token: Token, userId: UserId, familyId: FamilyId, expiresAt: int, now: int)
      modifies this
      ensures Store(records, lastPrunedAt)
        == AfterIssue(old(Store(records, lastPrunedAt)), token, userId, familyId, expiresAt, now)
    {
      hide ExpiredTokens;
      if now - lastPrunedAt >= PRUNE_INTERVAL_MS {
        var dropped := Prune(now);
      }
      records := records[token := Record(userId, familyId, Active, expiresAt)];
    }

    method ConsumeToken(token: Token, now: int) returns (outcome: Consumption)
      modifies this`records
      ensures outcome == Consume(old(records), token, now)
      ensures records == AfterConsume(old(records), token, now)
    {
      var record := Live(token, now);
      if record.None? {
        return Unknown;
      }
      var r := record.value;
      if r.phase == Rotated {
        return Reuse(r.userId, r.familyId);
      }
      if r.phase == Revoked {
        return WasRevoked(r.userId, r.familyId);
      }
      records := records[token := r.(phase := Rotated)];
      return Spent(r.userId, r.familyId);
    }

    method Revoke(token: Token, now: int)
      modifies this`records
      ensures records == AfterRevoke(old(records), token, now)
    {
      var record := Live(token, now);
      if record.Some? {
        records := records[token := record.value.(phase := Revoked)];
      }
    }

    method RevokeFamily(familyId: FamilyId, now: int) returns (revoked: nat)
      modifies this`records
      ensures records == AfterSweep(old(records), Family(familyId), now)
      ensures revoked == |Retired(old(records), Family(familyId), now)|
    {
      hide AfterSweep, Retired;
      var swept;
      swept, revoked := Sweep(records, Family(familyId), now);
      records := swept;
    }

    method RevokeAllForUser(userId: UserId, now: int)
      modifies this`records
      ensures records == AfterSweep(old(records), User(userId), now)
    {
      hide AfterSweep, Retired;
      var swept, revoked := Sweep(records, User(userId), now);
      records := swept;
    }

    method TokenIsActive(token: Token, now: int) returns (active: bool)
      modifies this`records
      ensures active == IsActive(old(records), token, now)
      ensures records == AfterLookup(old(records), token, now)
    {
      var record := Live(token, now);
      return record.Some? && record.value.phase == Active;
    }
  }

  method DropExpired(records: Records, now: int) returns (kept: Records, dropped: nat)
    ensures kept == records - ExpiredTokens(records, now)
    ensures dropped == |ExpiredTokens(records, now)|
  {
    hide ExpiredTokens;
    ghost var gone: set<Token> := {};
    var todo := records.Keys;
    kept, dropped := records, 0;
    while todo != {}
      invariant todo <= records.Keys
      invariant gone == ExpiredTokens(records, now) - todo
      invariant kept == records - gone && dropped == |gone|
      decreases todo
    {
      var t :| t in todo;
      DropOneMore(records, now, todo, gone, t);
      if kept[t].expiresAt <= now {
        kept, dropped, gone := kept - {t}, dropped + 1, gone + {t};
      }
      todo := todo - {t};
    }
    assert gone == ExpiredTokens(records, now);
  }

  lemma DropOneMore(records: Records, now: int, todo: set<Token>, gone: set<Token>, t: Token)
    requires t in todo && t in records && gone == ExpiredTokens(records, now) - todo
    ensures records[t].expiresAt <= now ==>
      gone + {t} == ExpiredTokens(records, now) - (todo - {t}) && records - gone - {t} == records - (gone + {t})
    ensures records[t].expiresAt > now ==> gone == ExpiredTokens(records, now) - (todo - {t})
  {
  }

  /** The records when the walk still has `todo` to visit. */
  ghost function HalfSwept(records: Records, target: Target, now: int, todo: set<Token>): Records {
    map t | t in records && (t in todo || t in AfterSweep(records, target, now)) ::
      if t in todo then records[t] else AfterSweep(records, target, now)[t]
  }

  method Sweep(records: Records, target: Target, now: int) returns (swept: Records, revoked: nat)
    ensures swept == AfterSweep(records, target, now)
    ensures revoked == |Retired(records, target, now)|
  {
    hide AfterSweep, Retired, HalfSwept;
    ghost var done: set<Token> := {};
    var todo := records.Keys;
    swept, revoked := records, 0;
    SweepStarts(records, target, now);
    while todo != {}
      invariant todo <= records.Keys
      invariant swept == HalfSwept(records, target, now, todo)
      invariant done == Retired(records, target, now) - todo && revoked == |done|
      decreases todo
    {
      var t :| t in todo;
      SweepOneMore(records, target, now, todo, done, t);
      var record := swept[t];
      if Aimed(target, record) {
        if record.expiresAt <= now {
          swept := swept - {t};
        } else {
          if record.phase != Revoked {
            revoked, done := revoked + 1, done + {t};
          }
          swept := swept[t := record.(phase := Revoked)];
        }
      }
      todo := todo - {t};
    }
    SweepEnds(records, target, now);
    assert done == Retired(records, target, now);
  }

  lemma SweepStarts(records: Records, target: Target, now: int)
    ensures HalfSwept(records, target, now, records.Keys) == records
  {
  }

  lemma SweepEnds(records: Records, target: Target, now: int)
    ensures HalfSwept(records, target, now, {}) == AfterSweep(records, target, now)
  {
  }

  lemma SweepOneMore(records: Records, target: Target, now: int, todo: set<Token>, done: set<Token>, t: Token)
    requires t in todo && todo <= records.Keys && done == Retired(records, target, now) - todo
    ensures var half, rest, record := HalfSwept(records, target, now, todo), todo - {t}, records[t];
      && t in half && half[t] == record
      && HalfSwept(records, target, now, rest) == (
           if !Aimed(target, record) then half
           else if record.expiresAt <= now then half - {t}
           else half[t := record.(phase := Revoked)])
      && Retired(records, target, now) - rest == (
           if Aimed(target, record) && record.expiresAt > now && record.phase != Revoked then done + {t} else done)
  {
  }
}
