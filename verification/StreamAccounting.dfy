/**
 * Where every entry of a stream is, for one consumer group, over every run of
 * commands with trimming: still unread, missed because it was trimmed first,
 * pending, acknowledged, destroyed with its consumer, or dropped by a claim.
 */
module StreamAccounting {
  import opened Options
  import opened StreamModel

  /** A grant is the delivery of an entry by a read, or a claim of it that succeeded. */
  datatype Kind = Delivery | Reclaim

  datatype Grant = Grant(id: EntryId, at: nat, kind: Kind, consumer: string)

  /**
   * History kept for one group. `owed` are the ids the group is owed, in append
   * order: those on the stream when a group reading from the start was created,
   * and all appended since. `grants` are deliveries and successful claims.
   */
  datatype Ledger = Ledger(
    owed: seq<EntryId>,
    delivered: seq<EntryId>,
    missed: set<EntryId>,
    acked: set<EntryId>,
    destroyed: set<EntryId>,
    dropped: set<EntryId>,
    grants: seq<Grant>)

  const EmptyLedger := Ledger([], [], {}, {}, {}, {}, [])

  datatype World = World(now: nat, core: Core, ledger: Ledger)

  datatype Event = Do(c: Command) | Tick(elapsed: nat)

  function IdsOf(entries: seq<Entry>): (ids: seq<EntryId>)
    ensures |ids| == |entries| && forall i :: 0 <= i < |ids| ==> ids[i] == entries[i].id
  {
    seq(|entries|, i requires 0 <= i < |entries| => entries[i].id)
  }

  function GrantsOf(entries: seq<Entry>, now: nat, kind: Kind, consumer: string): (grants: seq<Grant>)
    ensures |grants| == |entries|
    ensures forall i :: 0 <= i < |grants| ==> grants[i] == Grant(entries[i].id, now, kind, consumer)
  {
    seq(|entries|, i requires 0 <= i < |entries| => Grant(entries[i].id, now, kind, consumer))
  }

  /** The ids on the stream that the group has not reached yet. */
  function Unread(entries: seq<Entry>, cursor: Option<EntryId>): set<EntryId> {
    set i | 0 <= i < |entries| && Beyond(entries[i].id, cursor) :: entries[i].id
  }

  function LedgerAfter(gk: GroupKey, w: World, c: Command): Ledger {
    var (core', outcome) := Execute(w.core, w.now, c);
    var ledger := w.ledger;
    if c.key != gk.key then ledger
    else if c.Append? then
      if gk !in w.core.groups then ledger
      else
        var cursor := w.core.groups[gk].cursor;
        var grown := StreamOf(w.core, c.key) + [Entry(outcome.id, c.fields)];
        ledger.(owed := ledger.owed + [outcome.id],
                missed := ledger.missed + (Unread(grown, cursor) - Unread(StreamOf(core', c.key), cursor)))
    else if c.group != gk.name then ledger
    else if c.CreateGroup? then
      if outcome == Created then
        EmptyLedger.(owed := if c.fromStart then IdsOf(StreamOf(w.core, c.key)) else [])
      else ledger
    else if gk !in w.core.groups then ledger
    else
      var left := w.core.groups[gk].pending.Keys - core'.groups[gk].pending.Keys;
      match c
      case ReadGroup(_, _, _, _) =>
        ledger.(delivered := ledger.delivered + IdsOf(outcome.entries),
                grants := ledger.grants + GrantsOf(outcome.entries, w.now, Delivery, c.consumer))
      case Ack(_, _, _) => ledger.(acked := ledger.acked + left)
      case Claim(_, _, _, _, _) =>
        ledger.(dropped := ledger.dropped + left,
                grants := ledger.grants + GrantsOf(outcome.entries, w.now, Reclaim, c.consumer))
      case DeleteConsumer(_, _, _) => ledger.(destroyed := ledger.destroyed + left)
  }

  function Step(gk: GroupKey, w: World, e: Event): World {
    match e
    case Do(c) => World(w.now, Execute(w.core, w.now, c).0, LedgerAfter(gk, w, c))
    case Tick(elapsed) => w.(now := w.now + elapsed)
  }

  // ---------------------------------------------------------------------------
  // The invariant
  // ---------------------------------------------------------------------------

  /** The id was handed out no later than now. */
  predicate Issued(id: EntryId, now: nat, sequence: nat) {
    id.ms <= now && id.num <= sequence
  }

  ghost predicate StreamInv(entries: seq<Entry>, now: nat, sequence: nat) {
    && Sorted(IdsOf(entries))
    && (forall i :: 0 <= i < |entries| ==> Issued(entries[i].id, now, sequence))
  }

  /** Everything owed is exactly one of delivered, missed and still unread. */
  ghost predicate OwedInv(group: Group, ledger: Ledger, entries: seq<Entry>, now: nat, sequence: nat) {
    && Sorted(ledger.owed) && (forall id :: id in ledger.owed ==> Issued(id, now, sequence))
    && (group.cursor.Some? ==> Issued(group.cursor.value, now, sequence))
    && IdSet(ledger.owed) == IdSet(ledger.delivered) + ledger.missed + Unread(entries, group.cursor)
    && IdSet(ledger.delivered) !! ledger.missed
    && Unread(entries, group.cursor) !! ledger.missed
    && Sorted(ledger.delivered)
    && (ledger.delivered != [] ==> group.cursor == Some(ledger.delivered[|ledger.delivered| - 1]))
  }

  /** Everything delivered is exactly one of pending, acknowledged, destroyed and dropped. */
  ghost predicate DeliveredInv(group: Group, ledger: Ledger) {
    && IdSet(ledger.delivered) == group.pending.Keys + ledger.acked + ledger.destroyed + ledger.dropped
    && group.pending.Keys !! ledger.acked !! ledger.destroyed !! ledger.dropped
  }

  /** How many grants of this id and kind there were. */
  function CountOf(grants: seq<Grant>, id: EntryId, kind: Kind): nat {
    if grants == [] then 0
    else
      var last := grants[|grants| - 1];
      CountOf(grants[..|grants| - 1], id, kind) + (if last.id == id && last.kind == kind then 1 else 0)
  }

  function LastGrant(grants: seq<Grant>, id: EntryId): (last: Option<Grant>)
    ensures last.Some? ==> last.value in grants && last.value.id == id
  {
    if grants == [] then None
    else if grants[|grants| - 1].id == id then Some(grants[|grants| - 1])
    else LastGrant(grants[..|grants| - 1], id)
  }

  /** The pending record is that of its id's last grant: who holds it, and since when. */
  predicate HeldByLast(grants: seq<Grant>, id: EntryId, held: Pending) {
    var last := LastGrant(grants, id);
    last.Some? && last.value.consumer == held.consumer && last.value.at == held.deliveredAt
  }

  /** A pending id was delivered once; its record counts that and the claims, and remembers the last grant. */
  ghost predicate GrantInv(pending: map<EntryId, Pending>, grants: seq<Grant>, now: nat) {
    && (forall id :: id in pending ==>
          && CountOf(grants, id, Delivery) == 1
          && pending[id].deliveryCount == 1 + CountOf(grants, id, Reclaim)
          && pending[id].deliveredAt <= now
          && HeldByLast(grants, id, pending[id]))
    && (forall i :: 0 <= i < |grants| && grants[i].id in pending ==> grants[i].at <= pending[grants[i].id].deliveredAt)
  }

  /** Only an id whose entry is gone from the stream was ever dropped by a claim. */
  ghost predicate DroppedInv(ledger: Ledger, entries: seq<Entry>) {
    forall id :: id in ledger.dropped ==> id !in IdsOf(entries)
  }

  ghost predicate GrantsKnown(ledger: Ledger) {
    forall i :: 0 <= i < |ledger.grants| ==> ledger.grants[i].id in ledger.delivered
  }

  ghost predicate Inv(gk: GroupKey, w: World) {
    && StreamInv(StreamOf(w.core, gk.key), w.now, w.core.sequence)
    && (gk in w.core.groups ==>
          && OwedInv(w.core.groups[gk], w.ledger, StreamOf(w.core, gk.key), w.now, w.core.sequence)
          && DeliveredInv(w.core.groups[gk], w.ledger)
          && DroppedInv(w.ledger, StreamOf(w.core, gk.key))
          && GrantInv(w.core.groups[gk].pending, w.ledger.grants, w.now)
          && GrantsKnown(w.ledger))
  }

  // ---------------------------------------------------------------------------
  // Reading
  // ---------------------------------------------------------------------------

  /** The first entry past the cursor. */
  function FirstUnread(entries: seq<Entry>, cursor: Option<EntryId>): (lo: nat)
    ensures lo <= |entries|
    ensures forall k :: 0 <= k < lo ==> !Beyond(entries[k].id, cursor)
    ensures lo < |entries| ==> Beyond(entries[lo].id, cursor)
  {
    if entries == [] || Beyond(entries[0].id, cursor) then 0 else 1 + FirstUnread(entries[1..], cursor)
  }

  function Capped(lo: nat, room: int, len: nat): (hi: nat)
    requires lo <= len
    ensures lo <= hi <= len
  {
    if room <= 0 then lo else if lo + room <= len then lo + room else len
  }

  function PendingAfterRead(pending: map<EntryId, Pending>, got: seq<Entry>, consumer: string, now: nat)
    : map<EntryId, Pending>
  {
    Overlay(pending, IdSet(IdsOf(got)), Pending(consumer, now, 1))
  }

  function Overlay(pending: map<EntryId, Pending>, ids: set<EntryId>, record: Pending): map<EntryId, Pending> {
    pending + map id | id in ids :: record
  }

  /** Reading hands out the first `count` unread entries, in stream order, and nothing else. */
  lemma {:induction false} ReadIsSlice(
    group: Group, entries: seq<Entry>, i: nat, got: seq<Entry>, count: int, consumer: string, now: nat)
    requires i <= FirstUnread(entries, group.cursor) && Sorted(IdsOf(entries))
    ensures var (group', r) := ReadLoop(group, entries, i, got, count, consumer, now);
      var lo := FirstUnread(entries, group.cursor);
      var hi := Capped(lo, count - |got|, |entries|);
      && r == got + entries[lo..hi]
      && group'.consumers == group.consumers
      && group'.cursor == (if lo < hi then Some(entries[hi - 1].id) else group.cursor)
      && group'.pending == PendingAfterRead(group.pending, entries[lo..hi], consumer, now)
    decreases |entries| - i
  {
    hide PendingAfterRead, FirstUnread, Before, Sorted;
    var lo := FirstUnread(entries, group.cursor);
    var hi := Capped(lo, count - |got|, |entries|);
    if i == |entries| || |got| >= count {
      assert entries[lo..hi] == [];
      PendingAfterReadCons(group.pending, Entry(EntryId(0, 0), map[]), [], consumer, now);
    } else if i < lo {
      ReadIsSlice(group, entries, i + 1, got, count, consumer, now);
    } else {
      var e := entries[i];
      var group' := group.(cursor := Some(e.id), pending := group.pending[e.id := Pending(consumer, now, 1)]);
      assert FirstUnread(entries, group'.cursor) == i + 1 by {
        FirstUnreadAfter(entries, i);
      }
      ReadIsSlice(group', entries, i + 1, got + [e], count, consumer, now);
      assert entries[lo..hi] == [e] + entries[lo + 1..hi];
      PendingAfterReadCons(group.pending, e, entries[lo + 1..hi], consumer, now);
    }
  }

  lemma {:induction false} FirstUnreadAfter(entries: seq<Entry>, i: nat)
    requires i < |entries| && Sorted(IdsOf(entries))
    ensures FirstUnread(entries, Some(entries[i].id)) == i + 1
  {
    var ids := IdsOf(entries);
    assert forall k :: 0 <= k < i ==> Before(ids[k], ids[i]);
    assert i + 1 < |ids| ==> Before(ids[i], ids[i + 1]);
  }

  lemma PendingAfterReadCons(
    pending: map<EntryId, Pending>, e: Entry, rest: seq<Entry>, consumer: string, now: nat)
    ensures PendingAfterRead(pending[e.id := Pending(consumer, now, 1)], rest, consumer, now)
      == PendingAfterRead(pending, [e] + rest, consumer, now)
    ensures PendingAfterRead(pending, [], consumer, now) == pending
  {
    hide Overlay;
    assert IdsOf([e] + rest) == [e.id] + IdsOf(rest);
    assert IdSet(IdsOf([e] + rest)) == {e.id} + IdSet(IdsOf(rest));
    assert IdSet(IdsOf([])) == {};
    OverlayOneMore(pending, IdSet(IdsOf(rest)), e.id, Pending(consumer, now, 1));
  }

  lemma OverlayOneMore(pending: map<EntryId, Pending>, ids: set<EntryId>, id: EntryId, record: Pending)
    ensures Overlay(pending[id := record], ids, record) == Overlay(pending, {id} + ids, record)
    ensures Overlay(pending, {}, record) == pending
  {
  }

  /** What is delivered lies at or before the cursor, what is unread beyond it. */
  lemma {:induction false} DeliveredIsBehindCursor(
    group: Group, ledger: Ledger, entries: seq<Entry>, now: nat, sequence: nat)
    requires OwedInv(group, ledger, entries, now, sequence)
    ensures forall id :: id in ledger.delivered ==> !Beyond(id, group.cursor)
    ensures IdSet(ledger.delivered) !! Unread(entries, group.cursor)
  {
    forall id | id in ledger.delivered
      ensures !Beyond(id, group.cursor)
    {
      var i :| 0 <= i < |ledger.delivered| && ledger.delivered[i] == id;
      assert i < |ledger.delivered| - 1 ==> Before(id, group.cursor.value);
    }
  }

  lemma {:induction false} CountOfSum(a: seq<Grant>, b: seq<Grant>, id: EntryId, kind: Kind)
    ensures CountOf(a + b, id, kind) == CountOf(a, id, kind) + CountOf(b, id, kind)
  {
    if b == [] {
      assert a + b == a;
    } else {
      CountOfSum(a, b[..|b| - 1], id, kind);
      assert (a + b)[..|a + b| - 1] == a + b[..|b| - 1];
    }
  }

  lemma {:induction false} CountOfAbsent(grants: seq<Grant>, id: EntryId, kind: Kind)
    requires forall i :: 0 <= i < |grants| ==> grants[i].id != id
    ensures CountOf(grants, id, kind) == 0
  {
    if grants != [] {
      CountOfAbsent(grants[..|grants| - 1], id, kind);
    }
  }

  lemma {:induction false} LastGrantOfSum(a: seq<Grant>, b: seq<Grant>, id: EntryId)
    ensures LastGrant(a + b, id) == if LastGrant(b, id).Some? then LastGrant(b, id) else LastGrant(a, id)
  {
    if b == [] {
      assert a + b == a;
    } else {
      assert (a + b)[..|a + b| - 1] == a + b[..|b| - 1];
      LastGrantOfSum(a, b[..|b| - 1], id);
    }
  }

  lemma {:induction false} LastGrantFound(grants: seq<Grant>, id: EntryId)
    ensures LastGrant(grants, id).Some? <==> exists i :: 0 <= i < |grants| && grants[i].id == id
  {
    if grants != [] {
      LastGrantFound(grants[..|grants| - 1], id);
    }
  }

  lemma SortedIsDistinct(ids: seq<EntryId>)
    requires Sorted(ids)
    ensures forall i, j :: 0 <= i < |ids| && 0 <= j < |ids| && i != j ==> ids[i] != ids[j]
  {
    forall i, j | 0 <= i < |ids| && 0 <= j < |ids| && i != j
      ensures ids[i] != ids[j]
    {
      assert if i < j then Before(ids[i], ids[j]) else Before(ids[j], ids[i]);
    }
  }

  lemma {:induction false} CountOfDelivery(got: seq<Entry>, now: nat, consumer: string, k: nat)
    requires Sorted(IdsOf(got)) && k < |got|
    ensures CountOf(GrantsOf(got, now, Delivery, consumer), got[k].id, Delivery) == 1
  {
    hide GrantsOf, IdsOf, Before;
    var id := got[k].id;
    var grants := GrantsOf(got, now, Delivery, consumer);
    var before, after := grants[..k], grants[k + 1..];
    var ids := IdsOf(got);
    SortedIsDistinct(ids);
    CountOfAbsent(before, id, Delivery);
    CountOfAbsent(after, id, Delivery);
    assert grants == before + [grants[k]] + after;
    CountOfSum(before, [grants[k]], id, Delivery);
    CountOfSum(before + [grants[k]], after, id, Delivery);
    assert CountOf([grants[k]], id, Delivery) == 1;
  }

  lemma {:induction false} CountOfOtherKind(grants: seq<Grant>, id: EntryId, kind: Kind)
    requires forall i :: 0 <= i < |grants| ==> grants[i].kind != kind
    ensures CountOf(grants, id, kind) == 0
  {
    if grants != [] {
      CountOfOtherKind(grants[..|grants| - 1], id, kind);
    }
  }

  /** A read delivers a run of unread entries and moves the cursor to the last of them. */
  lemma {:induction false} ReadKeepsOwed(
    group: Group, ledger: Ledger, entries: seq<Entry>, now: nat, sequence: nat, hi: nat, after: Group)
    requires StreamInv(entries, now, sequence) && OwedInv(group, ledger, entries, now, sequence)
    requires var lo := FirstUnread(entries, group.cursor);
      && lo <= hi <= |entries|
      && after.cursor == if lo < hi then Some(entries[hi - 1].id) else group.cursor
    ensures var got := entries[FirstUnread(entries, group.cursor)..hi];
      && OwedInv(after, ledger.(delivered := ledger.delivered + IdsOf(got)), entries, now, sequence)
      && IdSet(IdsOf(got)) !! IdSet(ledger.delivered)
      && Sorted(IdsOf(got))
  {
    hide FirstUnread, Before, Sorted, Unread;
    var lo := FirstUnread(entries, group.cursor);
    var got := entries[lo..hi];
    var ids := IdsOf(entries);
    DeliveredIsBehindCursor(group, ledger, entries, now, sequence);
    assert IdsOf(got) == ids[lo..hi];
    SortedSlice(ids, lo, hi);
    BeyondIffPastFirst(entries, group.cursor);
    if lo < hi {
      FirstUnreadAfter(entries, hi - 1);
      BeyondIffPastFirst(entries, after.cursor);
      UnreadSplits(entries, group.cursor, after.cursor, lo, hi);
      SortedAppend(ledger.delivered, ids[lo..hi]);
      assert IdSet(ledger.delivered + ids[lo..hi]) == IdSet(ledger.delivered) + IdSet(ids[lo..hi]);
    } else {
      assert ledger.delivered + IdsOf(got) == ledger.delivered;
      assert IdSet(IdsOf(got)) == {};
    }
  }

  /** On a sorted stream the entries past the cursor are exactly those from the first one on. */
  lemma {:induction false} BeyondIffPastFirst(entries: seq<Entry>, cursor: Option<EntryId>)
    requires Sorted(IdsOf(entries))
    ensures forall k :: 0 <= k < |entries| ==> (Beyond(entries[k].id, cursor) <==> k >= FirstUnread(entries, cursor))
  {
    hide FirstUnread;
    var ids, lo := IdsOf(entries), FirstUnread(entries, cursor);
    forall k | lo <= k < |entries|
      ensures Beyond(entries[k].id, cursor)
    {
      assert k > lo ==> Before(ids[lo], ids[k]);
    }
  }

  lemma SortedSlice(ids: seq<EntryId>, lo: nat, hi: nat)
    requires Sorted(ids) && lo <= hi <= |ids|
    ensures Sorted(ids[lo..hi])
  {
  }

  lemma UnreadSplits(entries: seq<Entry>, c: Option<EntryId>, c': Option<EntryId>, lo: nat, hi: nat)
    requires lo <= hi <= |entries|
    requires forall k :: 0 <= k < |entries| ==> (Beyond(entries[k].id, c) <==> k >= lo)
    requires forall k :: 0 <= k < |entries| ==> (Beyond(entries[k].id, c') <==> k >= hi)
    ensures Unread(entries, c) == IdSet(IdsOf(entries)[lo..hi]) + Unread(entries, c')
  {
    hide Beyond;
    var ids := IdsOf(entries)[lo..hi];
    forall id | id in Unread(entries, c)
      ensures id in IdSet(ids) + Unread(entries, c')
    {
      var k :| 0 <= k < |entries| && Beyond(entries[k].id, c) && entries[k].id == id;
      if k < hi {
        assert ids[k - lo] == id;
      }
    }
  }

  lemma SortedAppend(a: seq<EntryId>, b: seq<EntryId>)
    requires Sorted(a) && Sorted(b)
    requires a == [] || b == [] || Before(a[|a| - 1], b[0])
    ensures Sorted(a + b)
  {
    var ids := a + b;
    forall i, j | 0 <= i < j < |ids|
      ensures Before(ids[i], ids[j])
    {
      if i < |a| <= j {
        assert i < |a| - 1 ==> Before(a[i], a[|a| - 1]);
        assert j > |a| ==> Before(b[0], b[j - |a|]);
      }
    }
  }

  lemma {:induction false} ReadKeepsGrants(
    pending: map<EntryId, Pending>, ledger: Ledger, got: seq<Entry>, consumer: string, now: nat)
    requires GrantInv(pending, ledger.grants, now) && GrantsKnown(ledger)
    requires pending.Keys <= IdSet(ledger.delivered)
    requires IdSet(IdsOf(got)) !! IdSet(ledger.delivered) && Sorted(IdsOf(got))
    ensures GrantInv(PendingAfterRead(pending, got, consumer, now), ledger.grants + GrantsOf(got, now, Delivery, consumer), now)
  {
    hide Sorted, Before, CountOf, LastGrant;
    var grants, more := ledger.grants, GrantsOf(got, now, Delivery, consumer);
    var pending' := PendingAfterRead(pending, got, consumer, now);
    forall id | id in pending'
      ensures CountOf(grants + more, id, Delivery) == 1
      ensures pending'[id].deliveryCount == 1 + CountOf(grants + more, id, Reclaim) && pending'[id].deliveredAt <= now
      ensures HeldByLast(grants + more, id, pending'[id])
    {
      LastGrantOfSum(grants, more, id);
      LastGrantFound(more, id);
      CountOfSum(grants, more, id, Delivery);
      CountOfSum(grants, more, id, Reclaim);
      CountOfOtherKind(more, id, Reclaim);
      if id in IdSet(IdsOf(got)) {
        var k :| 0 <= k < |got| && IdsOf(got)[k] == id;
        assert more[k].id == id;
        CountOfDelivery(got, now, consumer, k);
        CountOfAbsent(grants, id, Delivery);
        CountOfAbsent(grants, id, Reclaim);
      } else {
        assert forall i :: 0 <= i < |more| ==> more[i].id == IdsOf(got)[i];
        CountOfAbsent(more, id, Delivery);
      }
    }
    forall i | 0 <= i < |grants + more| && (grants + more)[i].id in pending'
      ensures (grants + more)[i].at <= pending'[(grants + more)[i].id].deliveredAt
    {
      if i < |grants| {
        assert grants[i].id in IdSet(ledger.delivered);
      } else {
        assert more[i - |grants|].id == IdsOf(got)[i - |grants|];
      }
    }
  }

  // ---------------------------------------------------------------------------
  // Claiming
  // ---------------------------------------------------------------------------

  /** Any two grants of one id are at least `floor` apart. */
  ghost predicate Spaced(grants: seq<Grant>, floor: int) {
    forall i, j :: 0 <= i < j < |grants| && grants[i].id == grants[j].id ==> grants[j].at - grants[i].at >= floor
  }

  lemma {:induction false} GrantOneMore(
    pending: map<EntryId, Pending>, grants: seq<Grant>, id: EntryId, consumer: string, now: nat, floor: int)
    requires id in pending && GrantInv(pending, grants, now) && now - pending[id].deliveredAt >= floor
    ensures GrantInv(pending[id := Pending(consumer, now, pending[id].deliveryCount + 1)],
                     grants + [Grant(id, now, Reclaim, consumer)], now)
    ensures Spaced(grants, floor) ==> Spaced(grants + [Grant(id, now, Reclaim, consumer)], floor)
  {
    var more := grants + [Grant(id, now, Reclaim, consumer)];
    assert more[..|more| - 1] == grants;
  }

  /** A claim hands out only pending ids, and drops only ids whose entry is gone. */
  lemma {:induction false} ClaimShape(
    group: Group, entries: seq<Entry>, consumer: string, minIdle: int, now: nat, ids: seq<EntryId>, i: nat,
    got: seq<Entry>)
    requires i <= |ids|
    ensures var (group', r) := ClaimLoop(group, entries, consumer, minIdle, now, ids, i, got);
      && group'.cursor == group.cursor
      && group'.pending.Keys <= group.pending.Keys
      && (forall id :: id in group.pending && id !in group'.pending ==> id !in IdsOf(entries))
      && got <= r
      && (forall k :: |got| <= k < |r| ==> r[k].id in group.pending && r[k] in entries)
    decreases |ids| - i
  {
    if i < |ids| {
      var (group', entry) := ClaimOne(group, entries, consumer, minIdle, now, ids[i]);
      ClaimShape(group', entries, consumer, minIdle, now, ids, i + 1, if entry.Some? then got + [entry.value] else got);
    }
  }

  /** A claim hands out exactly the ids listed that are pending, idle for long enough and still on the stream. */
  lemma {:induction false} ClaimGrantsIff(
    group: Group, entries: seq<Entry>, consumer: string, minIdle: int, now: nat, ids: seq<EntryId>, i: nat,
    got: seq<Entry>, id: EntryId)
    requires i <= |ids|
    ensures id in IdsOf(ClaimLoop(group, entries, consumer, minIdle, now, ids, i, got).1) <==>
      || id in IdsOf(got)
      || (&& id in ids[i..] && id in group.pending && now - group.pending[id].deliveredAt >= minIdle
          && id in IdsOf(entries))
    decreases |ids| - i
  {
    if i < |ids| {
      var (group', entry) := ClaimOne(group, entries, consumer, minIdle, now, ids[i]);
      var got' := if entry.Some? then got + [entry.value] else got;
      ClaimGrantsIff(group', entries, consumer, minIdle, now, ids, i + 1, got', id);
      assert ids[i..] == [ids[i]] + ids[i + 1..];
      assert IdsOf(got') == if entry.Some? then IdsOf(got) + [ids[i]] else IdsOf(got);
      OnStreamIffFound(entries, ids[i]);
    }
  }

  lemma OnStreamIffFound(entries: seq<Entry>, id: EntryId)
    ensures id in IdsOf(entries) <==> Find(entries, id).Some?
  {
    var found := Find(entries, id);
    if found.Some? {
      var k :| 0 <= k < |entries| && entries[k] == found.value;
      assert IdsOf(entries)[k] == id;
    }
  }

  /** A claim grants an id only once the floor has passed, and otherwise only drops. */
  lemma {:induction false} ClaimKeepsGrants(
    group: Group, entries: seq<Entry>, consumer: string, minIdle: int, now: nat, ids: seq<EntryId>, i: nat,
    got: seq<Entry>, grants: seq<Grant>, floor: int)
    requires i <= |ids| && floor <= minIdle
    requires GrantInv(group.pending, grants + GrantsOf(got, now, Reclaim, consumer), now)
    ensures var (group', r) := ClaimLoop(group, entries, consumer, minIdle, now, ids, i, got);
      && GrantInv(group'.pending, grants + GrantsOf(r, now, Reclaim, consumer), now)
      && (Spaced(grants + GrantsOf(got, now, Reclaim, consumer), floor) ==> Spaced(grants + GrantsOf(r, now, Reclaim, consumer), floor))
    decreases |ids| - i
  {
    hide GrantInv, Spaced;
    if i < |ids| {
      var id := ids[i];
      var (group', entry) := ClaimOne(group, entries, consumer, minIdle, now, id);
      var got' := if entry.Some? then got + [entry.value] else got;
      var so := grants + GrantsOf(got, now, Reclaim, consumer);
      if entry.Some? {
        GrantOneMore(group.pending, so, id, consumer, now, floor);
        assert grants + GrantsOf(got', now, Reclaim, consumer) == so + [Grant(id, now, Reclaim, consumer)];
      } else {
        DropKeepsGrants(group.pending, group'.pending, so, now);
      }
      ClaimKeepsGrants(group', entries, consumer, minIdle, now, ids, i + 1, got', grants, floor);
    }
  }

  lemma DropKeepsGrants(pending: map<EntryId, Pending>, fewer: map<EntryId, Pending>, grants: seq<Grant>, now: nat)
    requires GrantInv(pending, grants, now)
    requires forall id :: id in fewer ==> id in pending && fewer[id] == pending[id]
    ensures GrantInv(fewer, grants, now)
  {
  }

  // ---------------------------------------------------------------------------
  // Appending
  // ---------------------------------------------------------------------------

  /** Trimming keeps the newest entries: as many as it may, or all. */
  lemma TrimKeepsNewest(entries: seq<Entry>, maxLen: Option<int>)
    ensures |Trim(entries, maxLen)| ==
      if maxLen.None? || |entries| <= maxLen.value then |entries| else if maxLen.value < 0 then 0 else maxLen.value
    ensures Trim(entries, maxLen) == entries[|entries| - |Trim(entries, maxLen)|..]
  {
  }

  lemma {:induction false} GrownStreamInv(entries: seq<Entry>, now: nat, sequence: nat, fields: map<string, string>)
    requires StreamInv(entries, now, sequence)
    ensures StreamInv(entries + [Entry(EntryId(now, sequence + 1), fields)], now, sequence + 1)
  {
    var id := EntryId(now, sequence + 1);
    var grown := entries + [Entry(id, fields)];
    assert IdsOf(grown) == IdsOf(entries) + [id];
    assert entries != [] ==> Issued(entries[|entries| - 1].id, now, sequence);
    SortedAppend(IdsOf(entries), [id]);
  }

  lemma {:induction false} SuffixStreamInv(entries: seq<Entry>, p: nat, now: nat, sequence: nat)
    requires StreamInv(entries, now, sequence) && p <= |entries|
    ensures StreamInv(entries[p..], now, sequence)
    ensures forall cursor :: Unread(entries[p..], cursor) <= Unread(entries, cursor)
    ensures forall id :: id in IdsOf(entries[p..]) ==> id in IdsOf(entries)
  {
    hide Before;
    assert IdsOf(entries[p..]) == IdsOf(entries)[p..];
    SortedSlice(IdsOf(entries), p, |entries|);
    assert IdsOf(entries)[p..|entries|] == IdsOf(entries)[p..];
    forall cursor, id | id in Unread(entries[p..], cursor)
      ensures id in Unread(entries, cursor)
    {
      var k :| 0 <= k < |entries[p..]| && Beyond(entries[p..][k].id, cursor) && entries[p..][k].id == id;
      assert entries[p..][k] == entries[p + k];
    }
  }

  /** The appended entry is owed and unread; what trimming takes unread is missed. */
  lemma {:induction false} AppendKeepsOwed(
    group: Group, ledger: Ledger, entries: seq<Entry>, now: nat, sequence: nat, fields: map<string, string>,
    trimmed: seq<Entry>, p: nat)
    requires StreamInv(entries, now, sequence) && OwedInv(group, ledger, entries, now, sequence)
    requires var grown := entries + [Entry(EntryId(now, sequence + 1), fields)];
      p <= |grown| && trimmed == grown[p..]
    ensures var id := EntryId(now, sequence + 1);
      var grown := entries + [Entry(id, fields)];
      OwedInv(group,
              ledger.(owed := ledger.owed + [id],
                      missed := ledger.missed + (Unread(grown, group.cursor) - Unread(trimmed, group.cursor))),
              trimmed, now, sequence + 1)
  {
    var id := EntryId(now, sequence + 1);
    var grown := entries + [Entry(id, fields)];
    GrownStreamInv(entries, now, sequence, fields);
    SuffixStreamInv(grown, p, now, sequence + 1);
    DeliveredIsBehindCursor(group, ledger, entries, now, sequence);
    UnreadGrows(entries, group.cursor, Entry(id, fields));
    assert ledger.owed != [] ==> ledger.owed[|ledger.owed| - 1] in ledger.owed;
    SortedAppend(ledger.owed, [id]);
    assert IdSet(ledger.owed + [id]) == IdSet(ledger.owed) + {id};
    assert forall x :: x in IdSet(ledger.owed) ==> x in ledger.owed && x != id;
  }

  lemma UnreadGrows(entries: seq<Entry>, cursor: Option<EntryId>, e: Entry)
    requires Beyond(e.id, cursor)
    ensures Unread(entries + [e], cursor) == Unread(entries, cursor) + {e.id}
  {
    hide Beyond;
    var grown := entries + [e];
    assert grown[|entries|] == e;
    forall id | id in Unread(entries, cursor)
      ensures id in Unread(grown, cursor)
    {
      var k :| 0 <= k < |entries| && Beyond(entries[k].id, cursor) && entries[k].id == id;
      assert grown[k] == entries[k];
    }
  }
}
