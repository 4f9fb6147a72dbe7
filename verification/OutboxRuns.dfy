/**
 * Any number of relays running batches at once, with crashes, rollbacks, late
 * deliveries and the clock free to step in between any two of their steps.
 */
module OutboxRuns {
  import opened Options
  import opened OutboxModel

  /**
   * An open transaction. `view` is the locked rows as this transaction sees
   * them; `began` is its `now()`; `sent` is the result of a dispatch that has
   * not been marked yet.
   */
  datatype Batch = Batch(messages: seq<Message>, view: Table, next: nat, sent: Option<bool>, began: int, tally: Outcome)

  /**
   * `rows` is what is committed. History: every id ever enqueued, every id with
   * a dispatch that was attempted, and every id with a dispatch that resolved.
   */
  datatype System = System(
    now: int,
    rows: Table,
    batches: map<nat, Batch>,
    enqueued: set<MessageId>,
    tried: set<MessageId>,
    resolved: set<MessageId>)

  datatype Step =
    | Enqueue(id: MessageId, order: nat)
    | Claim(relay: nat, limit: nat, messages: seq<Message>)
    | Dispatch(relay: nat, delivered: bool)
    | ResolveLate(id: MessageId)
    | Mark(relay: nat, delay: nat)
    | Commit(relay: nat)
    | Abort(relay: nat)
    | Wait(elapsed: nat)

  function Locked(batches: map<nat, Batch>): set<MessageId> {
    set r, i | r in batches && 0 <= i < |batches[r].messages| :: batches[r].messages[i].id
  }

  ghost predicate CanStep(s: System, step: Step) {
    match step
    case Enqueue(id, _) => id !in s.enqueued
    case Claim(relay, limit, messages) =>
      relay !in s.batches && limit >= 1 && MayClaim(s.rows, Locked(s.batches), s.now, limit, messages)
    case Dispatch(relay, _) =>
      relay in s.batches && s.batches[relay].next < |s.batches[relay].messages| && s.batches[relay].sent.None?
    case ResolveLate(id) => id in s.tried
    case Mark(relay, _) =>
      relay in s.batches && s.batches[relay].next < |s.batches[relay].messages| && s.batches[relay].sent.Some?
    case Commit(relay) => relay in s.batches && s.batches[relay].next == |s.batches[relay].messages|
    case Abort(relay) => relay in s.batches
    case Wait(_) => true
  }

  function RowsOf(rows: Table, messages: seq<Message>): Table {
    map id | id in rows && id in IdsOf(messages) :: rows[id]
  }

  ghost function After(maxAttempts: nat, s: System, step: Step): System
    requires CanStep(s, step)
  {
    match step
    case Enqueue(id, order) =>
      s.(rows := s.rows[id := Row(Pending, 0, s.now, order)], enqueued := s.enqueued + {id})
    case Claim(relay, _, messages) =>
      s.(batches := s.batches[relay := Batch(messages, RowsOf(s.rows, messages), 0, None, s.now, EmptyOutcome)])
    case Dispatch(relay, delivered) =>
      var b := s.batches[relay];
      var id := b.messages[b.next].id;
      s.(batches := s.batches[relay := b.(sent := Some(delivered))], tried := s.tried + {id},
         resolved := if delivered then s.resolved + {id} else s.resolved)
    case ResolveLate(id) => s.(resolved := s.resolved + {id})
    case Mark(relay, delay) =>
      var b := s.batches[relay];
      var m, a := b.messages[b.next], Attempt(b.sent.value, delay);
      s.(batches := s.batches[relay := b.(
           view := AfterMark(maxAttempts, b.view, m, a, b.began), next := b.next + 1, sent := None,
           tally := Counted(maxAttempts, m, a, b.tally))])
    case Commit(relay) =>
      var b := s.batches[relay];
      s.(rows := s.rows - IdsOf(b.messages) + b.view, batches := s.batches - {relay})
    case Abort(relay) => s.(batches := s.batches - {relay})
    case Wait(elapsed) => s.(now := s.now + elapsed)
  }

  // ---------------------------------------------------------------------------
  // The invariant
  // ---------------------------------------------------------------------------

  /** A row is within the ladder: pending below the limit, dead exactly at it. */
  predicate OnLadder(maxAttempts: nat, row: Row) {
    if row.status == Pending then row.attempts < maxAttempts else row.attempts == maxAttempts
  }

  /** Message `i` of a batch: not reached yet, or marked according to its dispatch. */
  ghost predicate MessageInv(maxAttempts: nat, s: System, b: Batch, i: nat)
    requires i < |b.messages|
  {
    var m := b.messages[i];
    && m.id in s.rows && s.rows[m.id].status == Pending && s.rows[m.id].attempts == m.attempts
    && (i >= b.next ==> m.id in b.view && b.view[m.id] == s.rows[m.id])
    && (i < b.next ==> if m.id in b.view then OnLadder(maxAttempts, b.view[m.id]) else m.id in s.resolved)
  }

  ghost predicate BatchInv(maxAttempts: nat, s: System, b: Batch) {
    && b.next <= |b.messages|
    && (forall i, j :: 0 <= i < j < |b.messages| ==> b.messages[i].id != b.messages[j].id)
    && (forall i :: 0 <= i < |b.messages| ==> MessageInv(maxAttempts, s, b, i))
    && b.view.Keys <= IdsOf(b.messages)
    && (b.sent == Some(true) && b.next < |b.messages| ==> b.messages[b.next].id in s.resolved)
    && b.tally.claimed == 0 && b.tally.delivered + b.tally.rescheduled + b.tally.deadLettered == b.next
  }

  /** No two open batches hold the same row. */
  ghost predicate Disjoint(batches: map<nat, Batch>) {
    forall q, r :: q in batches && r in batches && q != r ==> IdsOf(batches[q].messages) !! IdsOf(batches[r].messages)
  }

  ghost predicate Inv(maxAttempts: nat, s: System) {
    && (forall id :: id in s.enqueued ==> id in s.rows || id in s.resolved)
    && s.rows.Keys <= s.enqueued
    && (forall id :: id in s.rows ==> OnLadder(maxAttempts, s.rows[id]))
    && (forall r :: r in s.batches ==> BatchInv(maxAttempts, s, s.batches[r]))
    && Disjoint(s.batches)
  }

  /** A batch only looks at its own rows and at what has resolved. */
  lemma {:induction false} BatchFrame(maxAttempts: nat, s: System, after: System, b: Batch)
    requires BatchInv(maxAttempts, s, b) && s.resolved <= after.resolved
    requires forall i :: 0 <= i < |b.messages| && b.messages[i].id in s.rows ==>
      b.messages[i].id in after.rows && after.rows[b.messages[i].id] == s.rows[b.messages[i].id]
    ensures BatchInv(maxAttempts, after, b)
  {
    hide OnLadder;
    forall i | 0 <= i < |b.messages|
      ensures MessageInv(maxAttempts, after, b, i)
    {
      assert MessageInv(maxAttempts, s, b, i);
    }
  }

  /** Steps that leave the committed rows of every open batch alone. */
  lemma {:induction false} OthersFrame(maxAttempts: nat, s: System, after: System, relay: nat)
    requires Inv(maxAttempts, s) && s.resolved <= after.resolved
    requires forall r :: r in after.batches && r != relay ==> r in s.batches && after.batches[r] == s.batches[r]
    requires forall r, id :: r in s.batches && r != relay && id in IdsOf(s.batches[r].messages) && id in s.rows ==>
      id in after.rows && after.rows[id] == s.rows[id]
    ensures forall r :: r in after.batches && r != relay ==> BatchInv(maxAttempts, after, after.batches[r])
  {
    hide OnLadder, Disjoint;
    forall r | r in after.batches && r != relay
      ensures BatchInv(maxAttempts, after, after.batches[r])
    {
      var b := s.batches[r];
      forall i | 0 <= i < |b.messages| && b.messages[i].id in s.rows
        ensures b.messages[i].id in after.rows && after.rows[b.messages[i].id] == s.rows[b.messages[i].id]
      {
        assert b.messages[i].id in IdsOf(b.messages);
      }
      BatchFrame(maxAttempts, s, after, b);
    }
  }

  lemma {:induction false} ClaimKeepsInv(maxAttempts: nat, s: System, step: Step)
    requires Inv(maxAttempts, s) && step.Claim? && CanStep(s, step)
    ensures Inv(maxAttempts, After(maxAttempts, s, step))
  {
    hide OnLadder, Sooner;
    var after := After(maxAttempts, s, step);
    OthersFrame(maxAttempts, s, after, step.relay);
    var b := after.batches[step.relay];
    forall i | 0 <= i < |b.messages|
      ensures MessageInv(maxAttempts, after, b, i)
    {
      assert b.messages[i].id in IdsOf(b.messages);
    }
    assert BatchInv(maxAttempts, after, b);
    forall r | r in s.batches
      ensures IdsOf(s.batches[r].messages) !! IdsOf(b.messages)
    {
      forall id | id in IdsOf(s.batches[r].messages)
        ensures id !in IdsOf(b.messages)
      {
        assert id in Locked(s.batches);
      }
    }
  }

  lemma {:induction false} DispatchKeepsInv(maxAttempts: nat, s: System, step: Step)
    requires Inv(maxAttempts, s) && (step.Dispatch? || step.ResolveLate?) && CanStep(s, step)
    ensures Inv(maxAttempts, After(maxAttempts, s, step))
  {
    hide OnLadder;
    var after := After(maxAttempts, s, step);
    forall r | r in after.batches
      ensures BatchInv(maxAttempts, after, after.batches[r])
    {
      BatchFrame(maxAttempts, s, after, s.batches[r]);
      forall i | 0 <= i < |after.batches[r].messages|
        ensures MessageInv(maxAttempts, after, after.batches[r], i)
      {
        assert MessageInv(maxAttempts, after, s.batches[r], i);
      }
    }
    assert Disjoint(after.batches);
  }

  lemma {:induction false} MarkKeepsInv(maxAttempts: nat, s: System, step: Step)
    requires maxAttempts >= 1 && Inv(maxAttempts, s) && step.Mark? && CanStep(s, step)
    ensures Inv(maxAttempts, After(maxAttempts, s, step))
  {
    var after := After(maxAttempts, s, step);
    OthersFrame(maxAttempts, s, after, step.relay);
    var b, b' := s.batches[step.relay], after.batches[step.relay];
    forall i | 0 <= i < |b'.messages|
      ensures MessageInv(maxAttempts, after, b', i)
    {
      assert MessageInv(maxAttempts, s, b, i);
      assert MessageInv(maxAttempts, s, b, b.next);
    }
    assert b'.view.Keys <= b.view.Keys by {
      assert MessageInv(maxAttempts, s, b, b.next);
    }
    assert BatchInv(maxAttempts, after, b');
    assert Disjoint(after.batches);
  }

  lemma {:induction false} CommitKeepsInv(maxAttempts: nat, s: System, step: Step)
    requires Inv(maxAttempts, s) && step.Commit? && CanStep(s, step)
    ensures Inv(maxAttempts, After(maxAttempts, s, step))
  {
    hide OnLadder;
    var after := After(maxAttempts, s, step);
    var b := s.batches[step.relay];
    OthersFrame(maxAttempts, s, after, step.relay);
    forall id | id in IdsOf(b.messages)
      ensures if id in b.view then OnLadder(maxAttempts, b.view[id]) else id in s.resolved
      ensures id in s.rows
    {
      var i :| 0 <= i < |b.messages| && b.messages[i].id == id;
      assert MessageInv(maxAttempts, s, b, i);
    }
    assert Disjoint(after.batches);
  }

  lemma {:induction false} RestKeepsInv(maxAttempts: nat, s: System, step: Step)
    requires maxAttempts >= 1 && Inv(maxAttempts, s) && CanStep(s, step)
    requires step.Enqueue? || step.Abort? || step.Wait?
    ensures Inv(maxAttempts, After(maxAttempts, s, step))
  {
    var after := After(maxAttempts, s, step);
    if step.Enqueue? {
      assert step.id !in s.rows;
    }
    forall r | r in after.batches
      ensures BatchInv(maxAttempts, after, after.batches[r])
    {
      BatchFrame(maxAttempts, s, after, s.batches[r]);
    }
    assert Disjoint(after.batches);
  }

  lemma StepKeepsInv(maxAttempts: nat, s: System, step: Step)
    requires maxAttempts >= 1 && Inv(maxAttempts, s) && CanStep(s, step)
    ensures Inv(maxAttempts, After(maxAttempts, s, step))
  {
    hide Inv, After, CanStep;
    match step
    case Claim(_, _, _) => ClaimKeepsInv(maxAttempts, s, step);
    case Dispatch(_, _) => DispatchKeepsInv(maxAttempts, s, step);
    case ResolveLate(_) => DispatchKeepsInv(maxAttempts, s, step);
    case Mark(_, _) => MarkKeepsInv(maxAttempts, s, step);
    case Commit(_) => CommitKeepsInv(maxAttempts, s, step);
    case _ => RestKeepsInv(maxAttempts, s, step);
  }

  // ---------------------------------------------------------------------------
  // Runs
  // ---------------------------------------------------------------------------

  datatype Run = Run(systems: seq<System>, steps: seq<Step>)

  const Start := System(0, map[], map[], {}, {}, {})

  ghost predicate RunStep(maxAttempts: nat, run: Run, n: nat)
    requires |run.systems| == |run.steps| + 1 && n < |run.steps|
  {
    CanStep(run.systems[n], run.steps[n]) && run.systems[n + 1] == After(maxAttempts, run.systems[n], run.steps[n])
  }

  /** Any interleaving of enqueues and relays, all with the same `maxAttempts`. */
  ghost predicate IsRun(maxAttempts: nat, run: Run) {
    && |run.systems| == |run.steps| + 1
    && run.systems[0] == Start
    && forall n :: 0 <= n < |run.steps| ==> RunStep(maxAttempts, run, n)
  }

  lemma {:induction false} InvHolds(maxAttempts: nat, run: Run, n: nat)
    requires maxAttempts >= 1 && IsRun(maxAttempts, run) && n <= |run.steps|
    ensures Inv(maxAttempts, run.systems[n])
  {
    hide After, CanStep;
    if n > 0 {
      InvHolds(maxAttempts, run, n - 1);
      assert RunStep(maxAttempts, run, n - 1);
      StepKeepsInv(maxAttempts, run.systems[n - 1], run.steps[n - 1]);
    }
  }

  /**
   * No loss: whatever crashes, every message ever enqueued is still in the
   * table or had a dispatch that resolved, and no two open batches hold one row.
   */
  lemma NoLoss(maxAttempts: nat, run: Run, n: nat)
    requires maxAttempts >= 1 && IsRun(maxAttempts, run) && n <= |run.steps|
    ensures var s := run.systems[n];
      && (forall id :: id in s.enqueued ==> id in s.rows || id in s.resolved)
      && (forall q, r :: q in s.batches && r in s.batches && q != r ==>
            IdsOf(s.batches[q].messages) !! IdsOf(s.batches[r].messages))
  {
    InvHolds(maxAttempts, run, n);
  }

  /**
   * The ladder: a committed pending row has been tried fewer than `maxAttempts`
   * times and a dead one exactly that often; and a batch that is ready to commit
   * has given each message it claimed exactly one of the three ends.
   */
  lemma LadderBound(maxAttempts: nat, run: Run, n: nat)
    requires maxAttempts >= 1 && IsRun(maxAttempts, run) && n <= |run.steps|
    ensures var s := run.systems[n];
      && (forall id :: id in s.rows ==>
            if s.rows[id].status == Pending then s.rows[id].attempts < maxAttempts
            else s.rows[id].attempts == maxAttempts)
      && (forall r :: r in s.batches && s.batches[r].next == |s.batches[r].messages| ==>
            s.batches[r].tally.(claimed := |s.batches[r].messages|).Balanced())
  {
    InvHolds(maxAttempts, run, n);
  }

  /** A row that is dead stays as it is for the rest of the run. */
  lemma {:induction false} DeadStaysDead(maxAttempts: nat, run: Run, m: nat, n: nat, id: MessageId)
    requires maxAttempts >= 1 && IsRun(maxAttempts, run) && m <= n <= |run.steps|
    requires id in run.systems[m].rows && run.systems[m].rows[id].status == Dead
    ensures id in run.systems[n].rows && run.systems[n].rows[id] == run.systems[m].rows[id]
    decreases n
  {
    if m < n {
      DeadStaysDead(maxAttempts, run, m, n - 1, id);
      InvHolds(maxAttempts, run, n - 1);
      assert RunStep(maxAttempts, run, n - 1);
      DeadIsUntouched(maxAttempts, run.systems[n - 1], run.steps[n - 1], id);
    }
  }

  lemma {:induction false} DeadIsUntouched(maxAttempts: nat, s: System, step: Step, id: MessageId)
    requires Inv(maxAttempts, s) && CanStep(s, step) && id in s.rows && s.rows[id].status == Dead
    ensures id in After(maxAttempts, s, step).rows && After(maxAttempts, s, step).rows[id] == s.rows[id]
  {
    hide OnLadder, MayClaim, Disjoint;
    if step.Commit? {
      var b := s.batches[step.relay];
      forall i | 0 <= i < |b.messages|
        ensures b.messages[i].id != id
      {
        assert MessageInv(maxAttempts, s, b, i);
      }
    }
  }

  /**
   * A message leaves the table only when a batch that holds it commits after one
   * of its dispatches resolved.
   */
  lemma {:induction false} RemovalNeedsDelivery(maxAttempts: nat, s: System, step: Step, id: MessageId)
    requires Inv(maxAttempts, s) && CanStep(s, step) && id in s.rows && id !in After(maxAttempts, s, step).rows
    ensures step.Commit? && id in IdsOf(s.batches[step.relay].messages) && id in s.resolved
  {
    hide OnLadder, MayClaim, Disjoint;
    var b := s.batches[step.relay];
    var i :| 0 <= i < |b.messages| && b.messages[i].id == id;
    assert MessageInv(maxAttempts, s, b, i);
  }

  // ---------------------------------------------------------------------------
  // What a batch does to each of its rows
  // ---------------------------------------------------------------------------

  function Lookup(rows: Table, id: MessageId): Option<Row> {
    if id in rows then Some(rows[id]) else None
  }

  /** The end a row meets: gone, waiting for its next attempt, or dead. */
  function EndOf(maxAttempts: nat, row: Row, m: Message, a: Attempt, now: int): Option<Row> {
    if a.delivered then None
    else if m.attempts + 1 < maxAttempts then Some(Row(row.status, row.attempts + 1, now + a.delay, row.order))
    else Some(Row(Dead, row.attempts + 1, row.availableAt, row.order))
  }

  lemma {:induction false} BatchLeavesOthers(
    maxAttempts: nat, rows: Table, messages: seq<Message>, attempts: seq<Attempt>, now: int, n: nat, id: MessageId)
    requires n <= |messages| == |attempts| && forall i :: 0 <= i < n ==> messages[i].id != id
    ensures Lookup(AfterMarks(maxAttempts, rows, messages, attempts, now, n), id) == Lookup(rows, id)
  {
    if n > 0 {
      BatchLeavesOthers(maxAttempts, rows, messages, attempts, now, n - 1, id);
    }
  }

  /** A batch over distinct rows gives each of them its own end, whatever its neighbours meet. */
  lemma {:induction false} BatchEndsEachRow(
    maxAttempts: nat, rows: Table, messages: seq<Message>, attempts: seq<Attempt>, now: int, n: nat, i: nat)
    requires i < n <= |messages| == |attempts| && messages[i].id in rows
    requires forall j, k :: 0 <= j < k < |messages| ==> messages[j].id != messages[k].id
    ensures Lookup(AfterMarks(maxAttempts, rows, messages, attempts, now, n), messages[i].id)
      == EndOf(maxAttempts, rows[messages[i].id], messages[i], attempts[i], now)
    decreases n
  {
    if i == n - 1 {
      BatchLeavesOthers(maxAttempts, rows, messages, attempts, now, i, messages[i].id);
    } else {
      BatchEndsEachRow(maxAttempts, rows, messages, attempts, now, n - 1, i);
    }
  }
}

/** What a batch reports is what can be seen in the table. */
module OutboxCounts {
  import opened OutboxModel
  import OutboxRelay
  import OutboxRuns

  /** The ids of some of the messages. */
  function IdsAt(messages: seq<Message>, indices: set<nat>): set<MessageId>
    requires forall i :: i in indices ==> i < |messages|
  {
    set i | i in indices :: messages[i].id
  }

  lemma {:induction false} AsManyIds(messages: seq<Message>, indices: set<nat>)
    requires forall i :: i in indices ==> i < |messages|
    requires forall i, j :: 0 <= i < j < |messages| ==> messages[i].id != messages[j].id
    ensures |IdsAt(messages, indices)| == |indices|
  {
    if indices != {} {
      var i :| i in indices;
      AsManyIds(messages, indices - {i});
      assert IdsAt(messages, indices) == IdsAt(messages, indices - {i}) + {messages[i].id};
      assert messages[i].id !in IdsAt(messages, indices - {i});
    }
  }

  lemma {:induction false} AsManyAsMessages(messages: seq<Message>)
    requires forall i, j :: 0 <= i < j < |messages| ==> messages[i].id != messages[j].id
    ensures |IdsOf(messages)| == |messages|
  {
    if messages != [] {
      var n := |messages| - 1;
      AsManyAsMessages(messages[..n]);
      assert IdsOf(messages) == IdsOf(messages[..n]) + {messages[n].id} by {
        assert forall i :: 0 <= i < n ==> messages[i] == messages[..n][i];
      }
    }
  }

  function Gone(b: OutboxRelay.Batch): set<MessageId> {
    set id | id in IdsOf(b.messages) && id !in b.after
  }

  function Left(b: OutboxRelay.Batch, status: Status): set<MessageId> {
    set id | id in IdsOf(b.messages) && id in b.after && b.after[id].status == status
  }

  lemma EachIsSeenOnce(b: OutboxRelay.Batch)
    ensures |IdsOf(b.messages)| == |Gone(b)| + |Left(b, Dead)| + |Left(b, Pending)|
  {
    hide IdsOf;
    assert IdsOf(b.messages) == Gone(b) + Left(b, Dead) + Left(b, Pending);
  }

  /** The end of each message, read off the table after the batch. */
  lemma EndIsSeen(
    batchSize: nat, maxAttempts: nat, locked: set<MessageId>, now: int, attempts: seq<Attempt>, b: OutboxRelay.Batch,
    i: nat)
    requires OutboxRelay.Committed(batchSize, maxAttempts, locked, now, attempts, b) && i < |b.messages|
    ensures var id := b.messages[i].id;
      && (id !in b.after <==> attempts[i].delivered)
      && (id in b.after ==> (b.after[id].status == Dead <==> b.messages[i].attempts + 1 >= maxAttempts))
  {
    hide AfterMarks, Sooner;
    OutboxRuns.BatchEndsEachRow(
      maxAttempts, b.before, b.messages, attempts[..|b.messages|], now, |b.messages|, i);
  }

  /**
   * Of the messages a committed batch claimed, as many are gone from the table
   * as it reports delivered, as many are dead as it reports given up, and as many
   * are pending as it reports rescheduled.
   */
  lemma CountsAreSeen(
    batchSize: nat, maxAttempts: nat, locked: set<MessageId>, now: int, attempts: seq<Attempt>, b: OutboxRelay.Batch)
    requires OutboxRelay.Committed(batchSize, maxAttempts, locked, now, attempts, b)
    ensures |Gone(b)| == b.outcome.delivered
    ensures |Left(b, Dead)| == b.outcome.deadLettered
    ensures |Left(b, Pending)| == b.outcome.rescheduled
  {
    hide AfterMarks, Sooner;
    forall i | 0 <= i < |b.messages|
      ensures var id := b.messages[i].id;
        && (id !in b.after <==> attempts[i].delivered)
        && (id in b.after ==> (b.after[id].status == Dead <==> b.messages[i].attempts + 1 >= maxAttempts))
    {
      EndIsSeen(batchSize, maxAttempts, locked, now, attempts, b, i);
    }
    var sent := OutboxRelay.Delivered(attempts, |b.messages|);
    var dead := OutboxRelay.GivenUp(maxAttempts, b.messages, attempts);
    assert Gone(b) == IdsAt(b.messages, sent);
    assert Left(b, Dead) == IdsAt(b.messages, dead);
    AsManyIds(b.messages, sent);
    AsManyIds(b.messages, dead);
    AsManyAsMessages(b.messages);
    EachIsSeenOnce(b);
  }
}
