/** When a message may be tried: never before the moment its enqueue or its last failure set. */
module OutboxTiming {
  import opened Options
  import opened OutboxModel
  import opened OutboxRuns

  /**
   * History. `due` is the moment before which a message must wait; `began` when
   * each open batch was claimed; `waits` the moments its failures so far will set
   * if it commits.
   */
  datatype Clock = Clock(due: map<MessageId, int>, began: map<nat, int>, waits: map<nat, map<MessageId, int>>)

  ghost function ClockAfter(clock: Clock, s: System, step: Step): Clock {
    match step
    case Enqueue(id, _) => clock.(due := clock.due[id := s.now])
    case Claim(relay, _, _) => clock.(began := clock.began[relay := s.now], waits := clock.waits[relay := map[]])
    case Mark(relay, delay) =>
      if relay in s.batches && relay in clock.began && relay in clock.waits
         && s.batches[relay].next < |s.batches[relay].messages| && s.batches[relay].sent == Some(false)
      then
        var id := s.batches[relay].messages[s.batches[relay].next].id;
        var more: map<MessageId, int> := clock.waits[relay][id := clock.began[relay] + delay];
        clock.(waits := clock.waits[relay := more])
      else clock
    case Commit(relay) => if relay in clock.waits then clock.(due := clock.due + clock.waits[relay]) else clock
    case _ => clock
  }

  ghost function ClockAt(run: Run, n: nat): Clock
    requires |run.systems| == |run.steps| + 1 && n <= |run.steps|
  {
    if n == 0 then Clock(map[], map[], map[]) else ClockAfter(ClockAt(run, n - 1), run.systems[n - 1], run.steps[n - 1])
  }

  // ---------------------------------------------------------------------------
  // The table keeps the moments
  // ---------------------------------------------------------------------------

  ghost predicate RowsOnTime(rows: Table, due: map<MessageId, int>) {
    forall id :: id in rows && rows[id].status == Pending ==> id in due && rows[id].availableAt == due[id]
  }

  ghost predicate WaitsAsMarked(view: Table, waits: map<MessageId, int>, id: MessageId) {
    id in view && view[id].status == Pending ==> id in waits && view[id].availableAt == waits[id]
  }

  /** What an open batch has marked will wait as its failures say; what it has not is as committed. */
  ghost predicate BatchOnTime(b: Batch, began: int, waits: map<MessageId, int>) {
    && b.began == began
    && (forall i :: 0 <= i < |b.messages| && i >= b.next ==> b.messages[i].id !in waits)
    && (forall i :: 0 <= i < |b.messages| && i < b.next ==> WaitsAsMarked(b.view, waits, b.messages[i].id))
    && waits.Keys <= IdsOf(b.messages)
  }

  ghost predicate OnTime(s: System, clock: Clock) {
    && RowsOnTime(s.rows, clock.due)
    && forall r :: r in s.batches ==>
         r in clock.began && r in clock.waits && BatchOnTime(s.batches[r], clock.began[r], clock.waits[r])
  }

  lemma {:induction false} MarkKeepsTime(maxAttempts: nat, s: System, step: Step, clock: Clock)
    requires Inv(maxAttempts, s) && step.Mark? && CanStep(s, step) && OnTime(s, clock)
    ensures OnTime(After(maxAttempts, s, step), ClockAfter(clock, s, step))
  {
    hide BatchInv, BatchOnTime, Disjoint, AfterMark, Counted, OnLadder;
    var after, clock' := After(maxAttempts, s, step), ClockAfter(clock, s, step);
    var r := step.relay;
    MarkedOnTime(
      maxAttempts, s, s.batches[r], after.batches[r], clock.began[r], clock.waits[r], clock'.waits[r], step.delay);
  }

  lemma MarkedOnTime(
    maxAttempts: nat, s: System, b: Batch, b': Batch, began: int, waits: map<MessageId, int>,
    waits': map<MessageId, int>, delay: nat)
    requires b.next < |b.messages| && b.sent.Some? && BatchOnTime(b, began, waits) && BatchInv(maxAttempts, s, b)
    requires b' == b.(view := AfterMark(maxAttempts, b.view, b.messages[b.next], Attempt(b.sent.value, delay), b.began),
                      next := b.next + 1, sent := None, tally := b'.tally)
    requires waits' == if b.sent.value then waits else waits[b.messages[b.next].id := began + delay]
    ensures BatchOnTime(b', began, waits')
  {
    hide OnLadder;
    var m := b.messages[b.next];
    assert MessageInv(maxAttempts, s, b, b.next);
    assert m.id in IdsOf(b.messages);
    forall i | 0 <= i < |b.messages| && i != b.next
      ensures b.messages[i].id != m.id
      ensures b.messages[i].id in b'.view <==> b.messages[i].id in b.view
      ensures b.messages[i].id in b.view ==> b'.view[b.messages[i].id] == b.view[b.messages[i].id]
    {
    }
  }

  lemma {:induction false} CommitKeepsTime(maxAttempts: nat, s: System, step: Step, clock: Clock)
    requires Inv(maxAttempts, s) && step.Commit? && CanStep(s, step) && OnTime(s, clock)
    ensures OnTime(After(maxAttempts, s, step), ClockAfter(clock, s, step))
  {
    hide OnLadder;
    var after, clock' := After(maxAttempts, s, step), ClockAfter(clock, s, step);
    var b, waits := s.batches[step.relay], clock.waits[step.relay];
    assert BatchInv(maxAttempts, s, b) && BatchOnTime(b, clock.began[step.relay], waits);
    forall id | id in after.rows && after.rows[id].status == Pending
      ensures id in clock'.due && after.rows[id].availableAt == clock'.due[id]
    {
      if id in b.view {
        assert id in IdsOf(b.messages);
        var i :| 0 <= i < |b.messages| && b.messages[i].id == id;
        assert i < b.next;
      } else {
        assert id !in IdsOf(b.messages) && id !in waits;
      }
    }
    forall r | r in after.batches
      ensures r in clock'.began && r in clock'.waits
      ensures BatchOnTime(after.batches[r], clock'.began[r], clock'.waits[r])
    {
      assert BatchOnTime(s.batches[r], clock.began[r], clock.waits[r]);
    }
  }

  lemma {:induction false} RestKeepsTime(maxAttempts: nat, s: System, step: Step, clock: Clock)
    requires Inv(maxAttempts, s) && !step.Mark? && !step.Commit? && CanStep(s, step) && OnTime(s, clock)
    ensures OnTime(After(maxAttempts, s, step), ClockAfter(clock, s, step))
  {
    hide OnLadder, MayClaim, Disjoint, BatchInv;
    var after, clock' := After(maxAttempts, s, step), ClockAfter(clock, s, step);
    forall r | r in after.batches
      ensures r in clock'.began && r in clock'.waits
      ensures BatchOnTime(after.batches[r], clock'.began[r], clock'.waits[r])
    {
      if r in s.batches {
        assert BatchOnTime(s.batches[r], clock.began[r], clock.waits[r]);
      }
    }
  }

  lemma {:induction false} OnTimeHolds(maxAttempts: nat, run: Run, n: nat)
    requires maxAttempts >= 1 && IsRun(maxAttempts, run) && n <= |run.steps|
    ensures OnTime(run.systems[n], ClockAt(run, n))
  {
    hide After, CanStep, ClockAfter, OnTime, Inv;
    if n == 0 {
      StartIsOnTime(run);
    } else {
      OnTimeHolds(maxAttempts, run, n - 1);
      InvHolds(maxAttempts, run, n - 1);
      assert RunStep(maxAttempts, run, n - 1);
      var s, step, clock := run.systems[n - 1], run.steps[n - 1], ClockAt(run, n - 1);
      if step.Mark? {
        MarkKeepsTime(maxAttempts, s, step, clock);
      } else if step.Commit? {
        CommitKeepsTime(maxAttempts, s, step, clock);
      } else {
        RestKeepsTime(maxAttempts, s, step, clock);
      }
    }
  }

  lemma StartIsOnTime(run: Run)
    requires |run.systems| == |run.steps| + 1 && run.systems[0] == Start
    ensures OnTime(run.systems[0], ClockAt(run, 0))
  {
  }

  // ---------------------------------------------------------------------------
  // Main result
  // ---------------------------------------------------------------------------

  /** A pending message that nobody has locked, and whose moment has come. */
  ghost predicate Waiting(s: System, due: map<MessageId, int>, id: MessageId) {
    id in s.rows && s.rows[id].status == Pending && id !in Locked(s.batches) && id in due && due[id] <= s.now
  }

  /** Every pending message has its moment. */
  lemma PendingHasItsMoment(maxAttempts: nat, run: Run, n: nat, id: MessageId)
    requires maxAttempts >= 1 && IsRun(maxAttempts, run) && n <= |run.steps|
    requires id in run.systems[n].rows && run.systems[n].rows[id].status == Pending
    ensures id in ClockAt(run, n).due
  {
    hide ClockAt;
    OnTimeHolds(maxAttempts, run, n);
  }

  /**
   * In every run a claim takes no message before its moment: that of its enqueue,
   * or of its last failed attempt's batch plus the backoff drawn. A claim that
   * came back short has left out no pending, unlocked message whose moment had
   * come, and a full one none that was due before one it took.
   */
  lemma ClaimedInTime(maxAttempts: nat, run: Run, n: nat)
    requires maxAttempts >= 1 && IsRun(maxAttempts, run) && n < |run.steps| && run.steps[n].Claim?
    ensures var s, due, messages := run.systems[n], ClockAt(run, n).due, run.steps[n].messages;
      && |messages| <= run.steps[n].limit
      && (forall i :: 0 <= i < |messages| ==>
            && messages[i].id in s.rows && s.rows[messages[i].id].status == Pending
            && messages[i].id !in Locked(s.batches)
            && messages[i].id in due && due[messages[i].id] <= s.now)
      && (forall id :: Waiting(s, due, id) && id !in IdsOf(messages) ==>
            |messages| == run.steps[n].limit && forall i :: 0 <= i < |messages| ==> due[messages[i].id] <= due[id])
  {
    hide ClockAt, Locked, IdsOf;
    OnTimeHolds(maxAttempts, run, n);
    assert RunStep(maxAttempts, run, n);
  }
}
