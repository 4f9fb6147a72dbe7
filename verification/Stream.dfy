/**
 * Consumer groups over append-only streams, in memory: entries with increasing
 * ids, a cursor and a pending list per group, claims above an idle floor.
 */
module StreamModel {
  import opened Options

  /** `<ms>-<num>`: the clock reading at the append and a counter shared by all streams. */
  datatype EntryId = EntryId(ms: nat, num: nat)

  datatype Entry = Entry(id: EntryId, fields: map<string, string>)
  datatype Pending = Pending(consumer: string, deliveredAt: nat, deliveryCount: nat)
  datatype Group = Group(cursor: Option<EntryId>, pending: map<EntryId, Pending>, consumers: set<string>)
  datatype GroupKey = GroupKey(key: string, name: string)

  /** `streams`, `groups` and `sequence`; groups are keyed by stream and name. */
  datatype Core = Core(streams: map<string, seq<Entry>>, groups: map<GroupKey, Group>, sequence: nat)

  datatype Outcome = NoGroup | Created | Exists | Appended(id: EntryId) | Entries(entries: seq<Entry>) | Count(n: nat) | Nothing

  /** Ids compare by their two numbers, the clock reading first. */
  predicate Before(a: EntryId, b: EntryId) {
    a.ms < b.ms || (a.ms == b.ms && a.num < b.num)
  }

  ghost predicate Sorted(ids: seq<EntryId>) {
    forall i, j :: 0 <= i < j < |ids| ==> Before(ids[i], ids[j])
  }

  predicate Beyond(id: EntryId, cursor: Option<EntryId>) {
    cursor.None? || Before(cursor.value, id)
  }

  function StreamOf(core: Core, key: string): seq<Entry> {
    if key in core.streams then core.streams[key] else []
  }

  /** The entries left after trimming to at most `maxLen`, oldest first out. */
  function Trim(entries: seq<Entry>, maxLen: Option<int>): seq<Entry> {
    if maxLen.Some? && |entries| > maxLen.value then
      entries[if maxLen.value < 0 then |entries| else |entries| - maxLen.value..]
    else entries
  }

  function FreshGroup(entries: seq<Entry>, fromStart: bool): Group {
    Group(if fromStart || entries == [] then None else Some(entries[|entries| - 1].id), map[], {})
  }

  /** The reading loop from entry `i` on, with `got` already delivered. */
  function ReadLoop(group: Group, entries: seq<Entry>, i: nat, got: seq<Entry>, count: int, consumer: string, now: nat)
    : (r: (Group, seq<Entry>))
    requires i <= |entries|
    decreases |entries| - i
  {
    if i == |entries| || |got| >= count then (group, got)
    else if !Beyond(entries[i].id, group.cursor) then ReadLoop(group, entries, i + 1, got, count, consumer, now)
    else
      var group' := group.(cursor := Some(entries[i].id),
                           pending := group.pending[entries[i].id := Pending(consumer, now, 1)]);
      ReadLoop(group', entries, i + 1, got + [entries[i]], count, consumer, now)
  }

  function Find(entries: seq<Entry>, id: EntryId): (found: Option<Entry>)
    ensures found.Some? ==> found.value in entries && found.value.id == id
    ensures found.None? ==> forall i :: 0 <= i < |entries| ==> entries[i].id != id
  {
    if entries == [] then None
    else if entries[0].id == id then Some(entries[0])
    else Find(entries[1..], id)
  }

  /** One id of a claim: refused, dropped because its entry was trimmed, or granted. */
  function ClaimOne(group: Group, entries: seq<Entry>, consumer: string, minIdle: int, now: nat, id: EntryId)
    : (Group, Option<Entry>)
  {
    if id !in group.pending || now - group.pending[id].deliveredAt < minIdle then (group, None)
    else
      var entry := Find(entries, id);
      if entry.None? then (group.(pending := group.pending - {id}), None)
      else
        var held := group.pending[id];
        (group.(pending := group.pending[id := Pending(consumer, now, held.deliveryCount + 1)]), entry)
  }

  function ClaimLoop(
    group: Group, entries: seq<Entry>, consumer: string, minIdle: int, now: nat, ids: seq<EntryId>, i: nat,
    got: seq<Entry>) : (Group, seq<Entry>)
    requires i <= |ids|
    decreases |ids| - i
  {
    if i == |ids| then (group, got)
    else
      var (group', entry) := ClaimOne(group, entries, consumer, minIdle, now, ids[i]);
      ClaimLoop(group', entries, consumer, minIdle, now, ids, i + 1, if entry.Some? then got + [entry.value] else got)
  }

  function Held(group: Group, ids: set<EntryId>): set<EntryId> {
    group.pending.Keys * ids
  }

  function HeldBy(group: Group, consumer: string): (ids: set<EntryId>)
    ensures ids <= group.pending.Keys
  {
    set id | id in group.pending && group.pending[id].consumer == consumer
  }

  // ---------------------------------------------------------------------------
  // Commands
  // ---------------------------------------------------------------------------

  datatype Command =
    | CreateGroup(key: string, group: string, fromStart: bool, mkstream: bool)
    | Append(key: string, fields: map<string, string>, maxLen: Option<int>)
    | ReadGroup(key: string, group: string, consumer: string, count: int)
    | Ack(key: string, group: string, ids: seq<EntryId>)
    | Claim(key: string, group: string, consumer: string, minIdle: int, ids: seq<EntryId>)
    | DeleteConsumer(key: string, group: string, consumer: string)

  function IdSet(ids: seq<EntryId>): set<EntryId> {
    set id | id in ids
  }

  function Execute(core: Core, now: nat, c: Command): (Core, Outcome) {
    match c
    case CreateGroup(key, name, fromStart, mkstream) =>
      if key !in core.streams && !mkstream then (core, NoGroup)
      else
        var streams := core.streams[key := StreamOf(core, key)];
        var gk := GroupKey(key, name);
        if gk in core.groups then (core.(streams := streams), Exists)
        else (core.(streams := streams, groups := core.groups[gk := FreshGroup(streams[key], fromStart)]), Created)
    case Append(key, fields, maxLen) =>
      var id := EntryId(now, core.sequence + 1);
      var entries := StreamOf(core, key) + [Entry(id, fields)];
      (core.(streams := core.streams[key := Trim(entries, maxLen)], sequence := core.sequence + 1), Appended(id))
    case ReadGroup(key, name, consumer, count) =>
      var gk := GroupKey(key, name);
      if gk !in core.groups then (core, NoGroup)
      else
        var group := core.groups[gk].(consumers := core.groups[gk].consumers + {consumer});
        var (group', got) := ReadLoop(group, StreamOf(core, key), 0, [], count, consumer, now);
        (core.(groups := core.groups[gk := group']), Entries(got))
    case Ack(key, name, ids) =>
      var gk := GroupKey(key, name);
      if gk !in core.groups then (core, NoGroup)
      else
        var group := core.groups[gk];
        (core.(groups := core.groups[gk := group.(pending := group.pending - IdSet(ids))]),
         Count(|Held(group, IdSet(ids))|))
    case Claim(key, name, consumer, minIdle, ids) =>
      var gk := GroupKey(key, name);
      if gk !in core.groups then (core, NoGroup)
      else
        var group := core.groups[gk].(consumers := core.groups[gk].consumers + {consumer});
        var (group', got) := ClaimLoop(group, StreamOf(core, key), consumer, minIdle, now, ids, 0, []);
        (core.(groups := core.groups[gk := group']), Entries(got))
    case DeleteConsumer(key, name, consumer) =>
      var gk := GroupKey(key, name);
      if gk !in core.groups then (core, Count(0))
      else
        var group := core.groups[gk];
        var gone := HeldBy(group, consumer);
        (core.(groups := core.groups[gk := group.(pending := group.pending - gone, consumers := group.consumers - {consumer})]),
         Count(|gone|))
  }
}

/** The store itself: maps updated in place, loops over entries and ids. */
module MemoryStream {
  import opened Options
  import opened StreamModel

  class MemoryStreamCommands {
    var streams: map<string, seq<Entry>>
    var groups: map<GroupKey, Group>
    var sequence: nat

    ghost function State(): Core
      reads this
    {
      Core(streams, groups, sequence)
    }

    constructor ()
      ensures State() == Core(map[], map[], 0)
    {
      streams, groups, sequence := map[], map[], 0;
    }

    method DoCreateGroup(key: string, name: string, fromStart: bool, mkstream: bool) returns (outcome: Outcome)
      modifies this
      ensures (State(), outcome) == Execute(old(State()), 0, CreateGroup(key, name, fromStart, mkstream))
    {
      if key !in streams {
        if !mkstream {
          return NoGroup;
        }
        streams := streams[key := []];
      }
      assert streams == old(streams)[key := StreamOf(old(State()), key)];
      var gk := GroupKey(key, name);
      if gk in groups {
        return Exists;
      }
      groups := groups[gk := FreshGroup(streams[key], fromStart)];
      return Created;
    }

    method DoAppend(key: string, fields: map<string, string>, maxLen: Option<int>, now: nat) returns (id: EntryId)
      modifies this
      ensures (State(), Appended(id)) == Execute(old(State()), now, Append(key, fields, maxLen))
    {
      var entries := if key in streams then streams[key] else [];
      sequence := sequence + 1;
      id := EntryId(now, sequence);
      entries := entries + [Entry(id, fields)];
      if maxLen.Some? && |entries| > maxLen.value {
        var evicted := |entries| - maxLen.value;
        entries := entries[if evicted > |entries| then |entries| else evicted..];
      }
      streams := streams[key := entries];
    }

    method DoReadGroup(key: string, name: string, consumer: string, count: int, now: nat) returns (outcome: Outcome)
      modifies this
      ensures (State(), outcome) == Execute(old(State()), now, ReadGroup(key, name, consumer, count))
    {
      hide Beyond;
      var gk := GroupKey(key, name);
      if gk !in groups {
        return NoGroup;
      }
      var record := groups[gk].(consumers := groups[gk].consumers + {consumer});
      ghost var start := record;
      var entries := if key in streams then streams[key] else [];
      var delivered: seq<Entry> := [];
      var i := 0;
      while i < |entries| && |delivered| < count
        invariant 0 <= i <= |entries|
        invariant ReadLoop(start, entries, 0, [], count, consumer, now)
          == ReadLoop(record, entries, i, delivered, count, consumer, now)
      {
        var entry := entries[i];
        i := i + 1;
        if !Beyond(entry.id, record.cursor) {
          continue;
        }
        record := record.(cursor := Some(entry.id), pending := record.pending[entry.id := Pending(consumer, now, 1)]);
        delivered := delivered + [entry];
      }
      groups := groups[gk := record];
      return Entries(delivered);
    }

    method DoAck(key: string, name: string, ids: seq<EntryId>) returns (outcome: Outcome)
      modifies this
      ensures (State(), outcome) == Execute(old(State()), 0, Ack(key, name, ids))
    {
      var gk := GroupKey(key, name);
      if gk !in groups {
        return NoGroup;
      }
      var pending, removed := AckPending(groups[gk], ids);
      groups := groups[gk := groups[gk].(pending := pending)];
      return Count(removed);
    }

    method DoClaim(key: string, name: string, consumer: string, minIdle: int, ids: seq<EntryId>, now: nat)
      returns (outcome: Outcome)
      modifies this
      ensures (State(), outcome) == Execute(old(State()), now, Claim(key, name, consumer, minIdle, ids))
    {
      var gk := GroupKey(key, name);
      if gk !in groups {
        return NoGroup;
      }
      var record := groups[gk].(consumers := groups[gk].consumers + {consumer});
      ghost var start := record;
      var entries := if key in streams then streams[key] else [];
      var claimed: seq<Entry> := [];
      var i := 0;
      while i < |ids|
        invariant 0 <= i <= |ids|
        invariant ClaimLoop(start, entries, consumer, minIdle, now, ids, 0, [])
          == ClaimLoop(record, entries, consumer, minIdle, now, ids, i, claimed)
      {
        var id := ids[i];
        i := i + 1;
        if id !in record.pending {
          continue;
        }
        var held := record.pending[id];
        if now - held.deliveredAt < minIdle {
          continue;
        }
        var entry := Find(entries, id);
        if entry.None? {
          record := record.(pending := record.pending - {id});
          continue;
        }
        record := record.(pending := record.pending[id := Pending(consumer, now, held.deliveryCount + 1)]);
        claimed := claimed + [entry.value];
      }
      groups := groups[gk := record];
      return Entries(claimed);
    }

    method DoDeleteConsumer(key: string, name: string, consumer: string) returns (destroyed: nat)
      modifies this
      ensures (State(), Count(destroyed)) == Execute(old(State()), 0, DeleteConsumer(key, name, consumer))
    {
      var gk := GroupKey(key, name);
      if gk !in groups {
        return 0;
      }
      var record := groups[gk];
      var pending;
      pending, destroyed := DestroyPending(record, consumer);
      groups := groups[gk := record.(pending := pending, consumers := record.consumers - {consumer})];
    }
  }

  /** Deletes the ids one by one, counting those that were pending when their turn came. */
  method AckPending(record: Group, ids: seq<EntryId>) returns (pending: map<EntryId, Pending>, removed: nat)
    ensures pending == record.pending - IdSet(ids)
    ensures removed == |Held(record, IdSet(ids))|
  {
    hide IdSet, Held;
    AckNone(record, ids);
    pending, removed := record.pending, 0;
    var i := 0;
    while i < |ids|
      invariant 0 <= i <= |ids|
      invariant pending == record.pending - IdSet(ids[..i])
      invariant removed == |Held(record, IdSet(ids[..i]))|
    {
      AckOneMore(record, ids, i);
      if ids[i] in pending {
        pending := pending - {ids[i]};
        removed := removed + 1;
      }
      i := i + 1;
    }
    assert ids[..|ids|] == ids;
  }

  /** Walks the pending list in an arbitrary order, deleting what the consumer holds. */
  method DestroyPending(record: Group, consumer: string) returns (pending: map<EntryId, Pending>, destroyed: nat)
    ensures pending == record.pending - HeldBy(record, consumer)
    ensures destroyed == |HeldBy(record, consumer)|
  {
    hide HeldBy;
    ghost var gone: set<EntryId> := {};
    var todo := record.pending.Keys;
    pending, destroyed := record.pending, 0;
    while todo != {}
      invariant todo <= record.pending.Keys
      invariant gone == HeldBy(record, consumer) - todo
      invariant pending == record.pending - gone
      invariant destroyed == |gone|
      decreases todo
    {
      var id :| id in todo;
      DestroyOneMore(record, consumer, todo, gone, id);
      if pending[id].consumer == consumer {
        pending := pending - {id};
        destroyed := destroyed + 1;
        gone := gone + {id};
      }
      todo := todo - {id};
    }
    assert gone == HeldBy(record, consumer);
  }

  lemma AckNone(start: Group, ids: seq<EntryId>)
    ensures start.pending - IdSet(ids[..0]) == start.pending
    ensures Held(start, IdSet(ids[..0])) == {}
  {
  }

  lemma AckOneMore(start: Group, ids: seq<EntryId>, i: nat)
    requires i < |ids|
    ensures IdSet(ids[..i + 1]) == IdSet(ids[..i]) + {ids[i]}
    ensures start.pending - IdSet(ids[..i + 1]) == start.pending - IdSet(ids[..i]) - {ids[i]}
    ensures ids[i] in start.pending - IdSet(ids[..i]) ==>
      |Held(start, IdSet(ids[..i + 1]))| == |Held(start, IdSet(ids[..i]))| + 1
    ensures ids[i] !in start.pending - IdSet(ids[..i]) ==>
      && start.pending - IdSet(ids[..i + 1]) == start.pending - IdSet(ids[..i])
      && Held(start, IdSet(ids[..i + 1])) == Held(start, IdSet(ids[..i]))
  {
    assert ids[..i + 1] == ids[..i] + [ids[i]];
    if ids[i] in start.pending - IdSet(ids[..i]) {
      assert Held(start, IdSet(ids[..i + 1])) == Held(start, IdSet(ids[..i])) + {ids[i]};
    }
  }

  lemma DestroyOneMore(start: Group, consumer: string, todo: set<EntryId>, gone: set<EntryId>, id: EntryId)
    requires id in todo && id in start.pending && gone == HeldBy(start, consumer) - todo
    ensures start.pending[id].consumer == consumer ==>
      && gone + {id} == HeldBy(start, consumer) - (todo - {id})
      && start.pending - gone - {id} == start.pending - (gone + {id})
    ensures start.pending[id].consumer != consumer ==> gone == HeldBy(start, consumer) - (todo - {id})
  {
  }
}
