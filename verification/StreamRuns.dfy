/** The accounting over whole runs: what every reachable state satisfies. */
module StreamRuns {
  import opened Options
  import opened StreamModel
  import opened StreamAccounting

  /** Nothing this group can see has changed, and time has not gone back. */
  lemma {:induction false} FrameKeepsInv(gk: GroupKey, w: World, after: World)
    requires Inv(gk, w)
    requires StreamOf(after.core, gk.key) == StreamOf(w.core, gk.key) && after.ledger == w.ledger
    requires gk in after.core.groups <==> gk in w.core.groups
    requires gk in w.core.groups ==> after.core.groups[gk] == w.core.groups[gk]
    requires after.now >= w.now && after.core.sequence >= w.core.sequence
    ensures Inv(gk, after)
  {
    hide Sorted, CountOf, Unread;
  }

  lemma {:induction false} AppendKeepsInv(gk: GroupKey, w: World, c: Command)
    requires Inv(gk, w) && c.Append? && c.key == gk.key
    ensures Inv(gk, Step(gk, w, Do(c)))
  {
    hide Trim, Unread, StreamInv, OwedInv, DroppedInv, GrantInv, GrantsKnown, DeliveredInv;
    hide ReadLoop, ClaimLoop, HeldBy, IdSet, FreshGroup;
    var entries := StreamOf(w.core, gk.key);
    var now, sequence := w.now, w.core.sequence;
    var id := EntryId(now, sequence + 1);
    var grown := entries + [Entry(id, c.fields)];
    TrimKeepsNewest(grown, c.maxLen);
    var p := |grown| - |Trim(grown, c.maxLen)|;
    GrownStreamInv(entries, now, sequence, c.fields);
    SuffixStreamInv(grown, p, now, sequence + 1);
    if gk in w.core.groups {
      AppendKeepsOwed(w.core.groups[gk], w.ledger, entries, now, sequence, c.fields, grown[p..], p);
      AppendKeepsDropped(w.core.groups[gk], w.ledger, entries, now, sequence, c.fields, grown[p..]);
      AppendKeepsRest(w.core.groups[gk], w.ledger, Step(gk, w, Do(c)).ledger, now);
      DroppedIgnoresRest(w.ledger, Step(gk, w, Do(c)).ledger, grown[p..]);
    }
  }

  lemma AppendKeepsDropped(
    group: Group, ledger: Ledger, entries: seq<Entry>, now: nat, sequence: nat, fields: map<string, string>,
    trimmed: seq<Entry>)
    requires OwedInv(group, ledger, entries, now, sequence) && DeliveredInv(group, ledger) && DroppedInv(ledger, entries)
    requires forall id :: id in IdsOf(trimmed) ==> id in IdsOf(entries + [Entry(EntryId(now, sequence + 1), fields)])
    ensures DroppedInv(ledger, trimmed)
  {
    hide Sorted, Unread, Before;
    var id := EntryId(now, sequence + 1);
    assert IdsOf(entries + [Entry(id, fields)]) == IdsOf(entries) + [id];
    forall x | x in ledger.dropped
      ensures x !in IdsOf(trimmed)
    {
      assert x in IdSet(ledger.delivered);
      assert x in IdSet(ledger.owed);
    }
  }

  lemma AppendKeepsRest(group: Group, ledger: Ledger, more: Ledger, now: nat)
    requires GrantInv(group.pending, ledger.grants, now) && GrantsKnown(ledger) && DeliveredInv(group, ledger)
    requires more == ledger.(owed := more.owed, missed := more.missed)
    ensures GrantInv(group.pending, more.grants, now) && GrantsKnown(more) && DeliveredInv(group, more)
  {
  }

  lemma {:induction false} ReadKeepsInv(gk: GroupKey, w: World, c: Command)
    requires Inv(gk, w) && c.ReadGroup? && c.key == gk.key && c.group == gk.name && gk in w.core.groups
    ensures Inv(gk, Step(gk, w, Do(c)))
  {
    hide ReadLoop, Unread, Sorted, Before, CountOf, PendingAfterRead, FirstUnread, Capped;
    hide OwedInv, DeliveredInv, DroppedInv, GrantInv, GrantsKnown;
    var entries, group := StreamOf(w.core, gk.key), w.core.groups[gk];
    var joined := group.(consumers := group.consumers + {c.consumer});
    ReadIsSlice(joined, entries, 0, [], c.count, c.consumer, w.now);
    var (after, got) := ReadLoop(joined, entries, 0, [], c.count, c.consumer, w.now);
    var lo := FirstUnread(entries, group.cursor);
    var hi := Capped(lo, c.count, |entries|);
    assert got == entries[lo..hi];
    ReadKeepsOwed(group, w.ledger, entries, w.now, w.core.sequence, hi, after);
    PendingIsDelivered(group, w.ledger);
    ReadKeepsGrants(group.pending, w.ledger, got, c.consumer, w.now);
    ReadKeepsDelivered(group, after, w.ledger, got, c.consumer, w.now);
    var more := w.ledger.(delivered := w.ledger.delivered + IdsOf(got),
                          grants := w.ledger.grants + GrantsOf(got, w.now, Delivery, c.consumer));
    OwedIgnoresGrants(after, more, w.ledger.(delivered := more.delivered), entries, w.now, w.core.sequence);
    DroppedIgnoresRest(w.ledger, more, entries);
  }

  lemma PendingIsDelivered(group: Group, ledger: Ledger)
    requires DeliveredInv(group, ledger)
    ensures group.pending.Keys <= IdSet(ledger.delivered)
  {
  }

  lemma OwedIgnoresGrants(group: Group, a: Ledger, b: Ledger, entries: seq<Entry>, now: nat, sequence: nat)
    requires a.owed == b.owed && a.delivered == b.delivered && a.missed == b.missed
    requires OwedInv(group, b, entries, now, sequence)
    ensures OwedInv(group, a, entries, now, sequence)
  {
  }

  lemma DroppedIgnoresRest(a: Ledger, b: Ledger, entries: seq<Entry>)
    requires a.dropped == b.dropped && DroppedInv(a, entries)
    ensures DroppedInv(b, entries)
  {
  }

  lemma ReadKeepsDelivered(group: Group, after: Group, ledger: Ledger, got: seq<Entry>, consumer: string, now: nat)
    requires DeliveredInv(group, ledger) && GrantsKnown(ledger)
    requires IdSet(IdsOf(got)) !! IdSet(ledger.delivered)
    requires after.pending == PendingAfterRead(group.pending, got, consumer, now)
    ensures var more := ledger.(delivered := ledger.delivered + IdsOf(got),
                                grants := ledger.grants + GrantsOf(got, now, Delivery, consumer));
      DeliveredInv(after, more) && GrantsKnown(more)
  {
    var ids := IdsOf(got);
    assert after.pending.Keys == group.pending.Keys + IdSet(ids);
    assert IdSet(ledger.delivered + ids) == IdSet(ledger.delivered) + IdSet(ids);
    var more := ledger.grants + GrantsOf(got, now, Delivery, consumer);
    forall i | 0 <= i < |more|
      ensures more[i].id in ledger.delivered + ids
    {
      if i >= |ledger.grants| {
        assert more[i].id == ids[i - |ledger.grants|];
      }
    }
  }

  /** Ids leave the pending list into exactly one of the other accounts. */
  lemma RemovalKeepsInv(
    group: Group, after: Group, ledger: Ledger, more: Ledger, entries: seq<Entry>, now: nat, sequence: nat)
    requires OwedInv(group, ledger, entries, now, sequence) && DeliveredInv(group, ledger)
    requires GrantsKnown(ledger) && DroppedInv(ledger, entries)
    requires after.cursor == group.cursor && after.pending.Keys <= group.pending.Keys
    requires more.owed == ledger.owed && more.delivered == ledger.delivered && more.missed == ledger.missed
    requires var left := group.pending.Keys - after.pending.Keys;
      || (more.acked == ledger.acked + left && more.destroyed == ledger.destroyed && more.dropped == ledger.dropped)
      || (more.acked == ledger.acked && more.destroyed == ledger.destroyed + left && more.dropped == ledger.dropped)
      || (more.acked == ledger.acked && more.destroyed == ledger.destroyed && more.dropped == ledger.dropped + left
          && forall id :: id in left ==> id !in IdsOf(entries))
    ensures OwedInv(after, more, entries, now, sequence) && DeliveredInv(after, more) && DroppedInv(more, entries)
  {
    hide Sorted, Unread, Before;
  }

  lemma {:induction false} AckKeepsInv(gk: GroupKey, w: World, c: Command)
    requires Inv(gk, w) && (c.Ack? || c.DeleteConsumer?) && c.key == gk.key && c.group == gk.name && gk in w.core.groups
    ensures Inv(gk, Step(gk, w, Do(c)))
  {
    hide Unread, Sorted, Before, CountOf, OwedInv, DeliveredInv, GrantInv, DroppedInv;
    var entries := StreamOf(w.core, gk.key);
    var group := w.core.groups[gk];
    var after := Step(gk, w, Do(c));
    var group' := after.core.groups[gk];
    RemovalKeepsInv(group, group', w.ledger, after.ledger, entries, w.now, w.core.sequence);
    DropKeepsGrants(group.pending, group'.pending, w.ledger.grants, w.now);
  }

  lemma {:induction false} ClaimKeepsInv(gk: GroupKey, w: World, c: Command)
    requires Inv(gk, w) && c.Claim? && c.key == gk.key && c.group == gk.name && gk in w.core.groups
    ensures Inv(gk, Step(gk, w, Do(c)))
    ensures forall floor: int :: floor <= c.minIdle && Spaced(w.ledger.grants, floor) ==>
      Spaced(Step(gk, w, Do(c)).ledger.grants, floor)
  {
    hide ClaimLoop, Unread, Sorted, Before, CountOf, OwedInv, DeliveredInv, GrantInv, DroppedInv, Spaced;
    var entries := StreamOf(w.core, gk.key);
    var group := w.core.groups[gk].(consumers := w.core.groups[gk].consumers + {c.consumer});
    var grants := w.ledger.grants;
    var after := Step(gk, w, Do(c));
    var got := ClaimLoop(group, entries, c.consumer, c.minIdle, w.now, c.ids, 0, []).1;
    assert grants + GrantsOf([], w.now, Reclaim, c.consumer) == grants;
    ClaimKeepsGrants(group, entries, c.consumer, c.minIdle, w.now, c.ids, 0, [], grants, c.minIdle);
    ClaimShape(group, entries, c.consumer, c.minIdle, w.now, c.ids, 0, []);
    RemovalKeepsInv(w.core.groups[gk], after.core.groups[gk], w.ledger, after.ledger, entries, w.now, w.core.sequence);
    ClaimedAreDelivered(w.core.groups[gk], w.ledger, got, c.consumer, w.now);
    forall floor: int | floor <= c.minIdle && Spaced(grants, floor)
      ensures Spaced(after.ledger.grants, floor)
    {
      ClaimKeepsGrants(group, entries, c.consumer, c.minIdle, w.now, c.ids, 0, [], grants, floor);
    }
  }

  lemma ClaimedAreDelivered(group: Group, ledger: Ledger, got: seq<Entry>, consumer: string, now: nat)
    requires DeliveredInv(group, ledger) && GrantsKnown(ledger)
    requires forall k :: 0 <= k < |got| ==> got[k].id in group.pending
    ensures GrantsKnown(ledger.(grants := ledger.grants + GrantsOf(got, now, Reclaim, consumer)))
  {
    var more := ledger.grants + GrantsOf(got, now, Reclaim, consumer);
    forall i | 0 <= i < |more|
      ensures more[i].id in ledger.delivered
    {
      if i >= |ledger.grants| {
        assert more[i].id == got[i - |ledger.grants|].id;
        assert more[i].id in IdSet(ledger.delivered);
      }
    }
  }

  lemma {:induction false} CreateKeepsInv(gk: GroupKey, w: World, c: Command)
    requires Inv(gk, w) && c.CreateGroup? && c.key == gk.key && c.group == gk.name && gk !in w.core.groups
    ensures Inv(gk, Step(gk, w, Do(c)))
  {
    hide StreamInv, OwedInv, DeliveredInv, DroppedInv, GrantInv, GrantsKnown, FreshGroup;
    FreshGroupIsAccounted(StreamOf(w.core, gk.key), w.now, w.core.sequence, c.fromStart);
  }

  lemma {:induction false} FreshGroupIsAccounted(entries: seq<Entry>, now: nat, sequence: nat, fromStart: bool)
    requires StreamInv(entries, now, sequence)
    ensures var group := FreshGroup(entries, fromStart);
      var ledger := EmptyLedger.(owed := if fromStart then IdsOf(entries) else []);
      && OwedInv(group, ledger, entries, now, sequence) && DeliveredInv(group, ledger)
      && DroppedInv(ledger, entries) && GrantInv(group.pending, ledger.grants, now) && GrantsKnown(ledger)
  {
    hide CountOf;
    var ids := IdsOf(entries);
    assert forall i :: 0 <= i < |entries| ==> ids[i] in ids;
    if fromStart || entries == [] {
      assert Unread(entries, None) == IdSet(ids);
    } else {
      var last := |entries| - 1;
      assert forall k :: 0 <= k < last ==> Before(ids[k], ids[last]);
      assert Unread(entries, Some(entries[last].id)) == {};
    }
  }

  lemma {:induction false} StepKeepsInv(gk: GroupKey, w: World, e: Event)
    requires Inv(gk, w)
    ensures Inv(gk, Step(gk, w, e))
  {
    hide Inv, ReadLoop, ClaimLoop, Trim, Unread, HeldBy, IdSet;
    if e.Tick? {
      FrameKeepsInv(gk, w, Step(gk, w, e));
    } else {
      var c := e.c;
      if c.key == gk.key && c.Append? {
        AppendKeepsInv(gk, w, c);
      } else if c.key != gk.key || c.group != gk.name || (c.CreateGroup? <==> gk in w.core.groups) {
        FrameKeepsInv(gk, w, Step(gk, w, e));
      } else {
        match c
        case CreateGroup(_, _, _, _) => CreateKeepsInv(gk, w, c);
        case ReadGroup(_, _, _, _) => ReadKeepsInv(gk, w, c);
        case Ack(_, _, _) => AckKeepsInv(gk, w, c);
        case DeleteConsumer(_, _, _) => AckKeepsInv(gk, w, c);
        case Claim(_, _, _, _, _) => ClaimKeepsInv(gk, w, c);
      }
    }
  }

  // ---------------------------------------------------------------------------
  // Runs
  // ---------------------------------------------------------------------------

  datatype Run = Run(worlds: seq<World>, events: seq<Event>)

  ghost predicate RunStep(gk: GroupKey, run: Run, n: nat)
    requires |run.worlds| == |run.events| + 1 && n < |run.events|
  {
    run.worlds[n + 1] == Step(gk, run.worlds[n], run.events[n])
  }

  /** Any sequence of commands and clock ticks, from an empty store; the ledger follows `gk`. */
  ghost predicate IsRun(gk: GroupKey, run: Run) {
    && |run.worlds| == |run.events| + 1
    && run.worlds[0].core == Core(map[], map[], 0)
    && forall n :: 0 <= n < |run.events| ==> RunStep(gk, run, n)
  }

  lemma {:induction false} InvHolds(gk: GroupKey, run: Run, n: nat)
    requires IsRun(gk, run) && n <= |run.events|
    ensures Inv(gk, run.worlds[n])
  {
    hide Step;
    if n == 0 {
      assert StreamOf(run.worlds[0].core, gk.key) == [];
    } else {
      InvHolds(gk, run, n - 1);
      assert RunStep(gk, run, n - 1);
      StepKeepsInv(gk, run.worlds[n - 1], run.events[n - 1]);
    }
  }

  /**
   * Conservation, in every reachable state: the ids owed to the group split
   * disjointly into those still unread on the stream, those trimmed before they
   * were read, and those delivered; the delivered ones split disjointly into
   * pending, acknowledged, destroyed and dropped. Deliveries are in append order
   * without repetition, and only ids gone from the stream were dropped.
   */
  lemma Accounting(gk: GroupKey, run: Run, n: nat)
    requires IsRun(gk, run) && n <= |run.events| && gk in run.worlds[n].core.groups
    ensures var w := run.worlds[n];
      var group, ledger, entries := w.core.groups[gk], w.ledger, StreamOf(w.core, gk.key);
      && IdSet(ledger.owed) == IdSet(ledger.delivered) + ledger.missed + Unread(entries, group.cursor)
      && IdSet(ledger.delivered) !! ledger.missed !! Unread(entries, group.cursor)
      && IdSet(ledger.delivered) == group.pending.Keys + ledger.acked + ledger.destroyed + ledger.dropped
      && group.pending.Keys !! ledger.acked !! ledger.destroyed !! ledger.dropped
      && Sorted(ledger.owed) && Sorted(ledger.delivered)
      && (forall id :: id in ledger.dropped ==> id !in IdsOf(entries))
  {
    hide Unread, Sorted;
    InvHolds(gk, run, n);
    var w := run.worlds[n];
    DeliveredIsBehindCursor(w.core.groups[gk], w.ledger, StreamOf(w.core, gk.key), w.now, w.core.sequence);
  }

  /** The ids that have left the pending list. */
  function Settled(ledger: Ledger): set<EntryId> {
    ledger.acked + ledger.destroyed + ledger.dropped
  }

  lemma {:induction false} SettledStaysSettled(gk: GroupKey, run: Run, m: nat, n: nat)
    requires IsRun(gk, run) && m <= n <= |run.events| && gk in run.worlds[m].core.groups
    ensures gk in run.worlds[n].core.groups
    ensures Settled(run.worlds[m].ledger) <= Settled(run.worlds[n].ledger)
    decreases n
  {
    if m < n {
      SettledStaysSettled(gk, run, m, n - 1);
      assert RunStep(gk, run, n - 1);
      StepKeepsSettled(gk, run.worlds[n - 1], run.events[n - 1]);
    }
  }

  lemma StepKeepsSettled(gk: GroupKey, w: World, e: Event)
    requires gk in w.core.groups
    ensures gk in Step(gk, w, e).core.groups
    ensures Settled(w.ledger) <= Settled(Step(gk, w, e).ledger)
  {
    hide ReadLoop, ClaimLoop, Trim, Unread, HeldBy, IdSet, FreshGroup;
  }

  /** What a step hands to a consumer of this group. */
  function HandedOut(gk: GroupKey, w: World, e: Event): seq<Entry> {
    if e.Do? && (e.c.ReadGroup? || e.c.Claim?) && e.c.key == gk.key && e.c.group == gk.name && gk in w.core.groups
    then Execute(w.core, w.now, e.c).1.entries else []
  }

  lemma {:induction false} HandedOutWasNotSettled(gk: GroupKey, w: World, e: Event, k: nat)
    requires Inv(gk, w) && gk in w.core.groups && k < |HandedOut(gk, w, e)|
    ensures HandedOut(gk, w, e)[k].id !in Settled(w.ledger)
    ensures e.c.ReadGroup? ==> HandedOut(gk, w, e)[k].id !in w.ledger.delivered
  {
    hide ReadLoop, ClaimLoop, Unread, Sorted, Before, CountOf, GrantInv, PendingAfterRead, FirstUnread, Capped, OwedInv;
    var entries, group, c := StreamOf(w.core, gk.key), w.core.groups[gk], e.c;
    var joined := group.(consumers := group.consumers + {c.consumer});
    var got := HandedOut(gk, w, e);
    if c.ReadGroup? {
      ReadIsSlice(joined, entries, 0, [], c.count, c.consumer, w.now);
      var lo := FirstUnread(entries, group.cursor);
      var hi := Capped(lo, c.count, |entries|);
      assert got == entries[lo..hi];
      ReadKeepsOwed(group, w.ledger, entries, w.now, w.core.sequence, hi,
                    ReadLoop(joined, entries, 0, [], c.count, c.consumer, w.now).0);
      assert IdsOf(got)[k] in IdSet(IdsOf(got));
      assert IdsOf(got)[k] !in IdSet(w.ledger.delivered);
    } else {
      ClaimShape(joined, entries, c.consumer, c.minIdle, w.now, c.ids, 0, []);
    }
  }

  /** Once an id has left the pending list it is never delivered and never claimed again. */
  lemma NeverAgain(gk: GroupKey, run: Run, m: nat, n: nat, id: EntryId)
    requires IsRun(gk, run) && m <= n < |run.events| && gk in run.worlds[m].core.groups
    requires id in Settled(run.worlds[m].ledger)
    ensures id !in IdsOf(HandedOut(gk, run.worlds[n], run.events[n]))
  {
    hide Inv, HandedOut;
    InvHolds(gk, run, n);
    SettledStaysSettled(gk, run, m, n);
    var got := HandedOut(gk, run.worlds[n], run.events[n]);
    forall k | 0 <= k < |got|
      ensures IdsOf(got)[k] != id
    {
      HandedOutWasNotSettled(gk, run.worlds[n], run.events[n], k);
    }
  }

  // ---------------------------------------------------------------------------
  // Claim exclusivity
  // ---------------------------------------------------------------------------

  /** Every claim on this group in the first `n` steps used at least this idle floor. */
  ghost predicate FloorUsed(gk: GroupKey, run: Run, n: nat, floor: int)
    requires n <= |run.events|
  {
    forall i :: 0 <= i < n && run.events[i].Do? && run.events[i].c.Claim?
                && run.events[i].c.key == gk.key && run.events[i].c.group == gk.name ==>
      run.events[i].c.minIdle >= floor
  }

  lemma {:induction false} StepKeepsSpaced(gk: GroupKey, w: World, e: Event, floor: int)
    requires Inv(gk, w) && gk in w.core.groups && Spaced(w.ledger.grants, floor)
    requires e.Do? && e.c.Claim? && e.c.key == gk.key && e.c.group == gk.name ==> e.c.minIdle >= floor
    ensures Spaced(Step(gk, w, e).ledger.grants, floor)
  {
    hide ReadLoop, ClaimLoop, Trim, Unread, HeldBy, IdSet, FreshGroup, Inv, Spaced;
    if e.Do? && e.c.key == gk.key && !e.c.Append? && e.c.group == gk.name {
      if e.c.Claim? {
        ClaimKeepsInv(gk, w, e.c);
      } else if e.c.ReadGroup? {
        ReadKeepsSpaced(gk, w, e, floor);
      }
    }
  }

  lemma {:induction false} ReadKeepsSpaced(gk: GroupKey, w: World, e: Event, floor: int)
    requires Inv(gk, w) && gk in w.core.groups && Spaced(w.ledger.grants, floor)
    requires e.Do? && e.c.ReadGroup? && e.c.key == gk.key && e.c.group == gk.name
    ensures Spaced(Step(gk, w, e).ledger.grants, floor)
  {
    hide ReadLoop, Unread, Before, Sorted, CountOf, GrantInv, OwedInv, DeliveredInv, DroppedInv;
    var got := HandedOut(gk, w, e);
    var grants, ids := w.ledger.grants, IdsOf(got);
    var more := grants + GrantsOf(got, w.now, Delivery, e.c.consumer);
    assert Step(gk, w, e).ledger.grants == more;
    ReadHandsOutSorted(gk, w, e);
    SortedIsDistinct(ids);
    forall i, j | 0 <= i < j < |more| && more[i].id == more[j].id
      ensures more[j].at - more[i].at >= floor
    {
      if j >= |grants| {
        assert more[j].id == ids[j - |grants|];
        HandedOutWasNotSettled(gk, w, e, j - |grants|);
      }
    }
  }

  lemma {:induction false} ReadHandsOutSorted(gk: GroupKey, w: World, e: Event)
    requires Inv(gk, w) && gk in w.core.groups
    requires e.Do? && e.c.ReadGroup? && e.c.key == gk.key && e.c.group == gk.name
    ensures Sorted(IdsOf(HandedOut(gk, w, e)))
  {
    hide ReadLoop, Unread, Before, Sorted, FirstUnread, Capped, PendingAfterRead;
    var entries, group, c := StreamOf(w.core, gk.key), w.core.groups[gk], e.c;
    ReadIsSlice(group.(consumers := group.consumers + {c.consumer}), entries, 0, [], c.count, c.consumer, w.now);
    var lo := FirstUnread(entries, group.cursor);
    var hi := Capped(lo, c.count, |entries|);
    SortedSlice(IdsOf(entries), lo, hi);
    assert IdsOf(entries[lo..hi]) == IdsOf(entries)[lo..hi];
    assert HandedOut(gk, w, e) == entries[lo..hi];
  }

  lemma {:induction false} SpacedHolds(gk: GroupKey, run: Run, n: nat, floor: int)
    requires IsRun(gk, run) && n <= |run.events| && FloorUsed(gk, run, n, floor)
    requires gk in run.worlds[n].core.groups
    ensures Spaced(run.worlds[n].ledger.grants, floor)
  {
    hide Spaced, Inv, Execute;
    assert n > 0;
    assert RunStep(gk, run, n - 1);
    if gk in run.worlds[n - 1].core.groups {
      SpacedHolds(gk, run, n - 1, floor);
      InvHolds(gk, run, n - 1);
      StepKeepsSpaced(gk, run.worlds[n - 1], run.events[n - 1], floor);
    } else {
      CreationStartsSpaced(gk, run.worlds[n - 1], run.events[n - 1], floor);
    }
  }

  lemma CreationStartsSpaced(gk: GroupKey, w: World, e: Event, floor: int)
    requires gk !in w.core.groups && gk in Step(gk, w, e).core.groups
    ensures Spaced(Step(gk, w, e).ledger.grants, floor)
  {
    hide ReadLoop, ClaimLoop, Trim, Unread, HeldBy, IdSet, FreshGroup;
  }

  /**
   * When every claim uses at least the idle floor, any two grants of one id are
   * at least that far apart; a pending id was delivered exactly once, its record
   * counts one plus the claims of it that succeeded, and it is held by the
   * consumer of its last grant, since then.
   */
  lemma ClaimExclusivity(gk: GroupKey, run: Run, n: nat, floor: int)
    requires IsRun(gk, run) && n <= |run.events| && FloorUsed(gk, run, n, floor)
    requires gk in run.worlds[n].core.groups
    ensures var grants, pending := run.worlds[n].ledger.grants, run.worlds[n].core.groups[gk].pending;
      && (forall i, j :: 0 <= i < j < |grants| && grants[i].id == grants[j].id ==> grants[j].at - grants[i].at >= floor)
      && (forall id :: id in pending ==>
            && CountOf(grants, id, Delivery) == 1
            && pending[id].deliveryCount == 1 + CountOf(grants, id, Reclaim)
            && LastGrant(grants, id).Some?
            && pending[id].consumer == LastGrant(grants, id).value.consumer
            && pending[id].deliveredAt == LastGrant(grants, id).value.at)
  {
    hide CountOf, LastGrant;
    SpacedHolds(gk, run, n, floor);
    InvHolds(gk, run, n);
  }

  /** A command on this group, sent at step `n` while the group exists. */
  ghost predicate CommandAt(gk: GroupKey, run: Run, n: nat)
    requires IsRun(gk, run) && n < |run.events|
  {
    && run.events[n].Do? && !run.events[n].c.Append? && run.events[n].c.key == gk.key && run.events[n].c.group == gk.name
    && gk in run.worlds[n].core.groups
  }

  /**
   * A claim hands out exactly the ids it lists that are pending, whose last grant
   * is at least its idle floor ago, and whose entry is still on the stream; it
   * hands out the stream's own entries.
   */
  lemma ClaimHandsOutIff(gk: GroupKey, run: Run, n: nat, id: EntryId)
    requires IsRun(gk, run) && n < |run.events| && CommandAt(gk, run, n) && run.events[n].c.Claim?
    ensures var w, c := run.worlds[n], run.events[n].c;
      var got, entries := HandedOut(gk, w, run.events[n]), StreamOf(w.core, gk.key);
      && (id in IdsOf(got) <==>
            && id in c.ids && id in w.core.groups[gk].pending && id in IdsOf(entries)
            && LastGrant(w.ledger.grants, id).Some?
            && w.now - LastGrant(w.ledger.grants, id).value.at >= c.minIdle)
      && forall k :: 0 <= k < |got| ==> got[k] in entries
  {
    hide ClaimLoop, Unread, Sorted, Before, CountOf, LastGrant, OwedInv, DeliveredInv, DroppedInv;
    InvHolds(gk, run, n);
    var w, c := run.worlds[n], run.events[n].c;
    var entries := StreamOf(w.core, gk.key);
    var joined := w.core.groups[gk].(consumers := w.core.groups[gk].consumers + {c.consumer});
    ClaimGrantsIff(joined, entries, c.consumer, c.minIdle, w.now, c.ids, 0, [], id);
    ClaimShape(joined, entries, c.consumer, c.minIdle, w.now, c.ids, 0, []);
    assert c.ids[0..] == c.ids;
  }

  /** The pending ids whose last grant was to this consumer. */
  ghost function OwnOf(pending: map<EntryId, Pending>, grants: seq<Grant>, consumer: string): set<EntryId> {
    set id | id in pending && LastGrant(grants, id).Some? && LastGrant(grants, id).value.consumer == consumer
  }

  lemma OwnIsHeld(group: Group, grants: seq<Grant>, now: nat, consumer: string)
    requires GrantInv(group.pending, grants, now)
    ensures OwnOf(group.pending, grants, consumer) == HeldBy(group, consumer)
  {
    hide CountOf, LastGrant;
  }

  lemma DeletionRemovesHeld(gk: GroupKey, w: World, c: Command)
    requires c.DeleteConsumer? && c.key == gk.key && c.group == gk.name && gk in w.core.groups
    ensures var after, own := Step(gk, w, Do(c)), HeldBy(w.core.groups[gk], c.consumer);
      && gk in after.core.groups
      && after.core.groups[gk].pending.Keys == w.core.groups[gk].pending.Keys - own
      && after.ledger.destroyed == w.ledger.destroyed + own
      && Execute(w.core, w.now, c).1 == Count(|own|)
  {
    var after, own := Step(gk, w, Do(c)), HeldBy(w.core.groups[gk], c.consumer);
    assert w.core.groups[gk].pending.Keys - after.core.groups[gk].pending.Keys == own;
  }

  /** Deleting a consumer destroys exactly the pending ids whose last grant was to it, and reports their number. */
  lemma DeletionDestroysItsOwn(gk: GroupKey, run: Run, n: nat)
    requires IsRun(gk, run) && n < |run.events| && CommandAt(gk, run, n) && run.events[n].c.DeleteConsumer?
    ensures var w, after, c := run.worlds[n], run.worlds[n + 1], run.events[n].c;
      var own := OwnOf(w.core.groups[gk].pending, w.ledger.grants, c.consumer);
      && gk in after.core.groups
      && after.core.groups[gk].pending.Keys == w.core.groups[gk].pending.Keys - own
      && after.ledger.destroyed == w.ledger.destroyed + own
      && Execute(w.core, w.now, c).1 == Count(|own|)
  {
    hide Step, Execute, OwnOf, HeldBy, OwedInv, DeliveredInv, DroppedInv, GrantInv;
    InvHolds(gk, run, n);
    assert RunStep(gk, run, n);
    var w, c := run.worlds[n], run.events[n].c;
    OwnIsHeld(w.core.groups[gk], w.ledger.grants, w.now, c.consumer);
    DeletionRemovesHeld(gk, w, c);
  }

  lemma AckRemovesListed(gk: GroupKey, w: World, c: Command)
    requires c.Ack? && c.key == gk.key && c.group == gk.name && gk in w.core.groups
    ensures var after := Step(gk, w, Do(c));
      var listed := set id | id in w.core.groups[gk].pending && id in c.ids;
      && gk in after.core.groups
      && after.core.groups[gk].pending.Keys == w.core.groups[gk].pending.Keys - listed
      && after.ledger.acked == w.ledger.acked + listed
      && Execute(w.core, w.now, c).1 == Count(|listed|)
  {
    var after, pending := Step(gk, w, Do(c)), w.core.groups[gk].pending;
    var listed := set id | id in pending && id in c.ids;
    assert Held(w.core.groups[gk], IdSet(c.ids)) == listed;
    assert pending.Keys - after.core.groups[gk].pending.Keys == listed;
  }

  /** Acknowledging settles exactly the ids listed that were pending, and reports their number, repeats aside. */
  lemma AckSettlesListed(gk: GroupKey, run: Run, n: nat)
    requires IsRun(gk, run) && n < |run.events| && CommandAt(gk, run, n) && run.events[n].c.Ack?
    ensures var w, after, c := run.worlds[n], run.worlds[n + 1], run.events[n].c;
      var listed := set id | id in w.core.groups[gk].pending && id in c.ids;
      && gk in after.core.groups
      && after.core.groups[gk].pending.Keys == w.core.groups[gk].pending.Keys - listed
      && after.ledger.acked == w.ledger.acked + listed
      && Execute(w.core, w.now, c).1 == Count(|listed|)
  {
    hide Step, Execute;
    assert RunStep(gk, run, n);
    AckRemovesListed(gk, run.worlds[n], run.events[n].c);
  }

  /**
   * Creating a group is refused without a stream unless one may be made, leaves
   * an existing group alone, and else adds a group that holds nothing. No entry
   * of any stream is touched.
   */
  lemma CreationIsAnswered(core: Core, now: nat, c: Command)
    requires c.CreateGroup?
    ensures var (after, outcome) := Execute(core, now, c);
      var gk := GroupKey(c.key, c.group);
      && (outcome == NoGroup <==> c.key !in core.streams && !c.mkstream)
      && (outcome == Exists <==> (c.key in core.streams || c.mkstream) && gk in core.groups)
      && (outcome == Created <==> (c.key in core.streams || c.mkstream) && gk !in core.groups)
      && (outcome == NoGroup ==> after == core)
      && (outcome != NoGroup ==> after.streams.Keys == core.streams.Keys + {c.key})
      && (outcome != Created ==> after.groups == core.groups)
      && (outcome == Created ==>
            && after.groups.Keys == core.groups.Keys + {gk} && after.groups - {gk} == core.groups - {gk}
            && after.groups[gk].pending == map[] && after.groups[gk].consumers == {})
      && (forall key :: StreamOf(after, key) == StreamOf(core, key))
  {
    var after := Execute(core, now, c).0;
    assert after.groups - {GroupKey(c.key, c.group)} == core.groups - {GroupKey(c.key, c.group)};
  }

  /** A command on a group that does not exist is refused, or deletes nothing, and changes nothing. */
  lemma UnknownGroupIsAnswered(core: Core, now: nat, c: Command)
    requires !c.CreateGroup? && !c.Append? && GroupKey(c.key, c.group) !in core.groups
    ensures Execute(core, now, c) == (core, if c.DeleteConsumer? then Count(0) else NoGroup)
  {
  }

  /** An append stores the fields under the id it returns, and the newest entries stay, as many as it may keep. */
  lemma AppendKeepsNewest(core: Core, now: nat, c: Command)
    requires c.Append?
    ensures var (after, outcome) := Execute(core, now, c);
      var grown := StreamOf(core, c.key) + [Entry(EntryId(now, core.sequence + 1), c.fields)];
      var kept := StreamOf(after, c.key);
      && outcome == Appended(EntryId(now, core.sequence + 1)) && after.sequence == core.sequence + 1
      && kept == grown[|grown| - |kept|..]
      && (c.maxLen.None? || |grown| <= c.maxLen.value ==> |kept| == |grown|)
      && (c.maxLen.Some? && 0 <= c.maxLen.value < |grown| ==> |kept| == c.maxLen.value)
      && (c.maxLen.Some? && c.maxLen.value < 0 ==> kept == [])
      && forall key :: key != c.key ==> StreamOf(after, key) == StreamOf(core, key)
  {
    hide Trim;
    TrimKeepsNewest(StreamOf(core, c.key) + [Entry(EntryId(now, core.sequence + 1), c.fields)], c.maxLen);
  }
}
