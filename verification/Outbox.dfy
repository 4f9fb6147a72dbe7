/**
 * The transactional outbox: rows that are pending or dead, and what the relay's
 * statements do to them.
 */
module OutboxModel {
  type MessageId = nat

  datatype Status = Pending | Dead

  /** `order` is the table's insertion sequence. */
  datatype Row = Row(status: Status, attempts: nat, availableAt: int, order: nat)

  type Table = map<MessageId, Row>

  /** A row as the claim returned it. */
  datatype Message = Message(id: MessageId, attempts: nat)

  datatype Outcome = Outcome(claimed: nat, delivered: nat, rescheduled: nat, deadLettered: nat) {
    function Plus(other: Outcome): Outcome {
      Outcome(claimed + other.claimed, delivered + other.delivered,
              rescheduled + other.rescheduled, deadLettered + other.deadLettered)
    }

    /** Every claimed message met exactly one of the three ends. */
    predicate Balanced() {
      claimed == delivered + rescheduled + deadLettered
    }
  }

  const EmptyOutcome := Outcome(0, 0, 0, 0)

  /** How one dispatch ended, and the backoff drawn if it has to wait. */
  datatype Attempt = Attempt(delivered: bool, delay: nat)

  predicate IsDue(row: Row, now: int) {
    row.status == Pending && row.availableAt <= now
  }

  predicate Sooner(a: Row, b: Row) {
    a.availableAt < b.availableAt || (a.availableAt == b.availableAt && a.order < b.order)
  }

  /**
   * What SELECT ... FOR UPDATE SKIP LOCKED may return: due rows that nobody has
   * locked, at most `limit` of them, soonest first, leaving none out that is
   * sooner than one it took.
   */
  ghost predicate MayClaim(rows: Table, locked: set<MessageId>, now: int, limit: nat, messages: seq<Message>) {
    && (forall i :: 0 <= i < |messages| ==>
          && messages[i].id in rows && messages[i].id !in locked
          && IsDue(rows[messages[i].id], now) && messages[i].attempts == rows[messages[i].id].attempts)
    && (forall i, j :: 0 <= i < j < |messages| ==>
          messages[i].id != messages[j].id && !Sooner(rows[messages[j].id], rows[messages[i].id]))
    && |messages| <= limit
    && (forall id :: id in rows && id !in locked && IsDue(rows[id], now) && id !in IdsOf(messages) ==>
          && |messages| == limit
          && (forall i :: 0 <= i < |messages| ==> !Sooner(rows[id], rows[messages[i].id])))
  }

  function IdsOf(messages: seq<Message>): set<MessageId> {
    set i | 0 <= i < |messages| :: messages[i].id
  }

  /** DELETE, or UPDATE to dead, or UPDATE to a later time; a missing row is left missing. */
  function AfterMark(maxAttempts: nat, rows: Table, m: Message, a: Attempt, now: int): Table {
    if a.delivered then rows - {m.id}
    else if m.id !in rows then rows
    else
      var row := rows[m.id];
      if m.attempts + 1 >= maxAttempts then rows[m.id := row.(attempts := row.attempts + 1, status := Dead)]
      else rows[m.id := row.(attempts := row.attempts + 1, availableAt := now + a.delay)]
  }

  function Counted(maxAttempts: nat, m: Message, a: Attempt, o: Outcome): Outcome {
    if a.delivered then o.(delivered := o.delivered + 1)
    else if m.attempts + 1 >= maxAttempts then o.(deadLettered := o.deadLettered + 1)
    else o.(rescheduled := o.rescheduled + 1)
  }

  /** The rows after the first `n` messages of a batch have been marked. */
  function AfterMarks(maxAttempts: nat, rows: Table, messages: seq<Message>, attempts: seq<Attempt>, now: int, n: nat)
    : Table
    requires n <= |messages| == |attempts|
  {
    if n == 0 then rows
    else AfterMark(maxAttempts, AfterMarks(maxAttempts, rows, messages, attempts, now, n - 1),
                   messages[n - 1], attempts[n - 1], now)
  }
}

/** One relay: a batch is a loop over claimed messages, a tick is a loop over batches. */
module OutboxRelay {
  import opened Options
  import opened OutboxModel

  /** How the dispatches of one batch would end, and where the store would fail, if at all. */
  datatype Plan = Plan(attempts: seq<Attempt>, failure: Option<nat>)

  /** What others make of the table before a batch, and the rows they hold locked during it. */
  datatype World = World(change: Table -> Table, locked: set<MessageId>)

  /** A batch that was committed: the table before and after it, what it claimed and what it reported. */
  datatype Batch = Batch(before: Table, messages: seq<Message>, outcome: Outcome, after: Table)

  /** It claimed what it may, marked each row by the end of its dispatch, and counted the ends. */
  ghost predicate Committed(
    batchSize: nat, maxAttempts: nat, locked: set<MessageId>, now: int, attempts: seq<Attempt>, b: Batch)
  {
    && MayClaim(b.before, locked, now, batchSize, b.messages) && |b.messages| <= |attempts|
    && b.after == AfterMarks(maxAttempts, b.before, b.messages, attempts[..|b.messages|], now, |b.messages|)
    && b.outcome.Balanced() && b.outcome.claimed == |b.messages|
    && b.outcome.delivered == |Delivered(attempts, |b.messages|)|
    && b.outcome.deadLettered == |GivenUp(maxAttempts, b.messages, attempts)|
  }

  /** The table batch `i` starts from: the one the batch before left, as others have changed it since. */
  function StartOf(start: Table, others: seq<World>, batches: seq<Batch>, i: nat): Table
    requires i < |others| && i <= |batches|
  {
    others[i].change(if i == 0 then start else batches[i - 1].after)
  }

  /** The table the first batches leave. */
  function LeftBy(start: Table, batches: seq<Batch>): Table {
    if batches == [] then start else batches[|batches| - 1].after
  }

  /** Each batch committed, starting from where the one before and the others left the table. */
  ghost predicate Chain(
    batchSize: nat, maxAttempts: nat, now: int, plans: seq<Plan>, others: seq<World>, start: Table, batches: seq<Batch>)
    requires |batches| <= |plans| == |others|
  {
    forall i :: 0 <= i < |batches| ==> Follows(batchSize, maxAttempts, now, plans, others, start, batches, i)
  }

  ghost predicate Follows(
    batchSize: nat, maxAttempts: nat, now: int, plans: seq<Plan>, others: seq<World>, start: Table,
    batches: seq<Batch>, i: nat)
    requires i < |batches| <= |plans| == |others|
  {
    && batches[i].before == StartOf(start, others, batches, i)
    && Committed(batchSize, maxAttempts, others[i].locked, now, plans[i].attempts, batches[i])
  }

  class PostgresOutboxStore {
    var rows: Table

    constructor ()
      ensures rows == map[]
    {
      rows := map[];
    }

    /** The claim statement, taking the soonest due row again and again. */
    method ClaimDue(locked: set<MessageId>, now: int, limit: nat) returns (messages: seq<Message>)
      ensures MayClaim(rows, locked, now, limit, messages)
    {
      hide Sooner, IsDue, Taking, MayClaim;
      messages := [];
      var left := set id | id in rows && id !in locked && IsDue(rows[id], now);
      NoneTaken(rows, locked, now, limit, left);
      while |messages| < limit && left != {}
        invariant |messages| <= limit && Taking(rows, locked, now, limit, messages, left)
        decreases left
      {
        LeftIsStored(rows, locked, now, limit, messages, left);
        SoonestExists(rows, left);
        var id :| id in left && forall other :: other in left ==> !Sooner(rows[other], rows[id]);
        TakeOneMore(rows, locked, now, limit, messages, left, id);
        messages := messages + [Message(id, rows[id].attempts)];
        left := left - {id};
      }
      TakenIsClaimed(rows, locked, now, limit, messages, left);
    }

    /**
     * One batch, one transaction. `attempts` is how each dispatch would end; a
     * store failure at message `failure` rolls everything back.
     */
    method RunOutboxBatch(
      batchSize: nat, maxAttempts: nat, locked: set<MessageId>, now: int,
      attempts: seq<Attempt>, failure: Option<nat>) returns (outcome: Option<Outcome>, messages: seq<Message>)
      requires batchSize >= 1 && maxAttempts >= 1 && |attempts| == batchSize
      modifies this
      ensures MayClaim(old(rows), locked, now, batchSize, messages) && |messages| <= |attempts|
      ensures outcome.None? <==> (failure.Some? && failure.value < |messages|)
      ensures outcome.None? ==> rows == old(rows)
      ensures outcome.Some? ==>
        Committed(batchSize, maxAttempts, locked, now, attempts, Batch(old(rows), messages, outcome.value, rows))
    {
      hide *;
      messages := ClaimDue(locked, now, batchSize);
      ClaimFits(rows, locked, now, batchSize, messages);
      var working := rows;
      var tally := EmptyOutcome;
      var i := 0;
      NothingMarked(maxAttempts, rows, messages, attempts, now);
      while i < |messages|
        invariant 0 <= i <= |messages|
        invariant MarkedTo(maxAttempts, rows, messages, attempts, now, i, working, tally)
        invariant failure.Some? ==> failure.value >= i
        invariant rows == old(rows)
      {
        if failure == Some(i) {
          return None, messages;
        }
        MarkOneMore(maxAttempts, rows, messages, attempts, now, i, working, tally);
        working := AfterMark(maxAttempts, working, messages[i], attempts[i], now);
        tally := Counted(maxAttempts, messages[i], attempts[i], tally);
        i := i + 1;
      }
      AllMarked(batchSize, maxAttempts, locked, now, attempts, rows, messages, working, tally);
      rows := working;
      return Some(tally.(claimed := |messages|)), messages;
    }

    /**
     * One tick: batches until one comes back short or the cap is reached.
     * `plans` says how each batch's dispatches would end; `others` what the rest
     * of the world does to the table, and the rows it holds locked, before each
     * batch. A failed batch ends the tick with nothing to report and leaves the
     * table as it met it.
     */
    method RunOutboxRelay(
      batchSize: nat, maxBatches: nat, maxAttempts: nat, now: int,
      plans: seq<Plan>, others: seq<World>)
      returns (total: Option<Outcome>, batches: seq<Batch>)
      requires batchSize >= 1 && maxBatches >= 1 && maxAttempts >= 1
      requires |plans| == |others| == maxBatches && forall i :: 0 <= i < maxBatches ==> |plans[i].attempts| == batchSize
      modifies this
      ensures |batches| <= maxBatches && Chain(batchSize, maxAttempts, now, plans, others, old(rows), batches)
      ensures forall i :: 0 <= i < |batches| - 1 ==> batches[i].outcome.claimed == batchSize
      ensures total.Some? ==>
        && |batches| > 0 && rows == LeftBy(old(rows), batches)
        && (|batches| == maxBatches || batches[|batches| - 1].outcome.claimed < batchSize)
        && total.value == Sum(batches) && total.value.Balanced()
      ensures total.None? ==>
        && |batches| < maxBatches && plans[|batches|].failure.Some?
        && rows == StartOf(old(rows), others, batches, |batches|)
        && (|batches| > 0 ==> batches[|batches| - 1].outcome.claimed == batchSize)
    {
      hide *;
      batches := [];
      SumEmpty();
      var sum := EmptyOutcome;
      ChainEmpty(batchSize, maxAttempts, now, plans, others, rows);
      while |batches| < maxBatches
        invariant |batches| <= maxBatches && sum == Sum(batches) && sum.Balanced()
        invariant Chain(batchSize, maxAttempts, now, plans, others, old(rows), batches)
        invariant rows == LeftBy(old(rows), batches)
        invariant forall i :: 0 <= i < |batches| ==> batches[i].outcome.claimed == batchSize
      {
        var i := |batches|;
        ghost var before := batches;
        StartFollowsEnd(old(rows), others, batches);
        rows := others[i].change(rows);
        var start := rows;
        var outcome, messages := RunOutboxBatch(
          batchSize, maxAttempts, others[i].locked, now, plans[i].attempts, plans[i].failure);
        if outcome.None? {
          return None, batches;
        }
        var batch := Batch(start, messages, outcome.value, rows);
        ChainOneMore(batchSize, maxAttempts, now, plans, others, old(rows), batches, batch);
        CommittedIsBalanced(batchSize, maxAttempts, others[i].locked, now, plans[i].attempts, batch);
        SumSnoc(batches, batch);
        BalancedPlus(sum, outcome.value);
        sum := sum.Plus(outcome.value);
        batches := batches + [batch];
        assert forall k :: 0 <= k < i ==> batches[k] == before[k];
        if outcome.value.claimed < batchSize {
          return Some(sum), batches;
        }
      }
      return Some(sum), batches;
    }
  }

  lemma CommittedIsBalanced(
    batchSize: nat, maxAttempts: nat, locked: set<MessageId>, now: int, attempts: seq<Attempt>, b: Batch)
    requires Committed(batchSize, maxAttempts, locked, now, attempts, b)
    ensures b.outcome.Balanced() && b.outcome.claimed <= batchSize
  {
    hide IsDue, Sooner, IdsOf, AfterMarks, Delivered, GivenUp;
  }

  lemma ChainEmpty(
    batchSize: nat, maxAttempts: nat, now: int, plans: seq<Plan>, others: seq<World>, start: Table)
    requires |plans| == |others|
    ensures Chain(batchSize, maxAttempts, now, plans, others, start, []) && LeftBy(start, []) == start
  {
  }

  lemma StartFollowsEnd(start: Table, others: seq<World>, batches: seq<Batch>)
    requires |batches| < |others|
    ensures StartOf(start, others, batches, |batches|) == others[|batches|].change(LeftBy(start, batches))
  {
  }

  lemma ChainOneMore(
    batchSize: nat, maxAttempts: nat, now: int, plans: seq<Plan>, others: seq<World>, start: Table,
    batches: seq<Batch>, b: Batch)
    requires |batches| < |plans| == |others|
    requires Chain(batchSize, maxAttempts, now, plans, others, start, batches)
    requires b.before == StartOf(start, others, batches, |batches|)
    requires Committed(batchSize, maxAttempts, others[|batches|].locked, now, plans[|batches|].attempts, b)
    ensures Chain(batchSize, maxAttempts, now, plans, others, start, batches + [b])
    ensures LeftBy(start, batches + [b]) == b.after
  {
    hide Committed;
    var more := batches + [b];
    forall i | 0 <= i < |more|
      ensures Follows(batchSize, maxAttempts, now, plans, others, start, more, i)
    {
      if i < |batches| {
        assert Follows(batchSize, maxAttempts, now, plans, others, start, batches, i);
      }
    }
  }

  ghost function Delivered(attempts: seq<Attempt>, n: nat): set<nat>
    requires n <= |attempts|
  {
    set i: nat | i < n && attempts[i].delivered
  }

  ghost function GivenUp(maxAttempts: nat, messages: seq<Message>, attempts: seq<Attempt>): set<nat>
    requires |messages| <= |attempts|
  {
    set i: nat | i < |messages| && !attempts[i].delivered && messages[i].attempts + 1 >= maxAttempts
  }

  /** Halfway through a claim: what is taken is due and in order, and nothing left is sooner. */
  ghost predicate Taking(
    rows: Table, locked: set<MessageId>, now: int, limit: nat, messages: seq<Message>, left: set<MessageId>)
  {
    && (forall id :: id in left ==> id in rows && id !in locked && IsDue(rows[id], now))
    && (forall id :: id in rows && id !in locked && IsDue(rows[id], now) ==> id in left || id in IdsOf(messages))
    && (forall i :: 0 <= i < |messages| ==>
          && messages[i].id in rows && messages[i].id !in locked && messages[i].id !in left
          && IsDue(rows[messages[i].id], now) && messages[i].attempts == rows[messages[i].id].attempts)
    && (forall i, j :: 0 <= i < j < |messages| ==>
          messages[i].id != messages[j].id && !Sooner(rows[messages[j].id], rows[messages[i].id]))
    && (forall i, id :: 0 <= i < |messages| && id in left ==> !Sooner(rows[id], rows[messages[i].id]))
    && |messages| <= limit
  }

  lemma NoneTaken(rows: Table, locked: set<MessageId>, now: int, limit: nat, left: set<MessageId>)
    requires left == set id | id in rows && id !in locked && IsDue(rows[id], now)
    ensures Taking(rows, locked, now, limit, [], left)
  {
  }

  lemma LeftIsStored(
    rows: Table, locked: set<MessageId>, now: int, limit: nat, messages: seq<Message>, left: set<MessageId>)
    requires Taking(rows, locked, now, limit, messages, left)
    ensures left <= rows.Keys
  {
  }

  lemma TakeOneMore(
    rows: Table, locked: set<MessageId>, now: int, limit: nat, messages: seq<Message>, left: set<MessageId>,
    id: MessageId)
    requires Taking(rows, locked, now, limit, messages, left) && |messages| < limit && left <= rows.Keys
    requires id in left && forall other :: other in left ==> !Sooner(rows[other], rows[id])
    ensures Taking(rows, locked, now, limit, messages + [Message(id, rows[id].attempts)], left - {id})
  {
    hide Sooner, IsDue;
    var more := messages + [Message(id, rows[id].attempts)];
    assert IdsOf(more) == IdsOf(messages) + {id} by {
      assert more[|messages|].id == id;
      assert forall i :: 0 <= i < |messages| ==> more[i] == messages[i];
    }
    hide IdsOf;
  }

  lemma TakenIsClaimed(
    rows: Table, locked: set<MessageId>, now: int, limit: nat, messages: seq<Message>, left: set<MessageId>)
    requires Taking(rows, locked, now, limit, messages, left) && (|messages| == limit || left == {})
    ensures MayClaim(rows, locked, now, limit, messages)
  {
    hide Sooner, IsDue, IdsOf;
  }

  /** The first `i` messages are marked in the working copy and counted. */
  ghost predicate MarkedTo(
    maxAttempts: nat, rows: Table, messages: seq<Message>, attempts: seq<Attempt>, now: int, i: nat,
    working: Table, tally: Outcome)
    requires i <= |messages| <= |attempts|
  {
    && working == AfterMarks(maxAttempts, rows, messages, attempts[..|messages|], now, i)
    && tally.claimed == 0 && tally.delivered + tally.rescheduled + tally.deadLettered == i
    && tally.delivered == |Delivered(attempts, i)|
    && tally.deadLettered == |GivenUp(maxAttempts, messages[..i], attempts)|
  }

  lemma ClaimFits(rows: Table, locked: set<MessageId>, now: int, limit: nat, messages: seq<Message>)
    requires MayClaim(rows, locked, now, limit, messages)
    ensures |messages| <= limit
  {
    hide Sooner, IsDue, IdsOf;
  }

  lemma NothingMarked(maxAttempts: nat, rows: Table, messages: seq<Message>, attempts: seq<Attempt>, now: int)
    requires |messages| <= |attempts|
    ensures MarkedTo(maxAttempts, rows, messages, attempts, now, 0, rows, EmptyOutcome)
  {
    assert Delivered(attempts, 0) == {} && GivenUp(maxAttempts, messages[..0], attempts) == {};
  }

  lemma MarkOneMore(
    maxAttempts: nat, rows: Table, messages: seq<Message>, attempts: seq<Attempt>, now: int, i: nat,
    working: Table, tally: Outcome)
    requires i < |messages| <= |attempts|
    requires MarkedTo(maxAttempts, rows, messages, attempts, now, i, working, tally)
    ensures MarkedTo(maxAttempts, rows, messages, attempts, now, i + 1,
                     AfterMark(maxAttempts, working, messages[i], attempts[i], now),
                     Counted(maxAttempts, messages[i], attempts[i], tally))
  {
    hide AfterMark, Delivered, GivenUp;
    CountOneMore(maxAttempts, messages, attempts, i);
  }

  lemma AllMarked(
    batchSize: nat, maxAttempts: nat, locked: set<MessageId>, now: int, attempts: seq<Attempt>, rows: Table,
    messages: seq<Message>, working: Table, tally: Outcome)
    requires |messages| <= |attempts| && MayClaim(rows, locked, now, batchSize, messages)
    requires MarkedTo(maxAttempts, rows, messages, attempts, now, |messages|, working, tally)
    ensures Committed(batchSize, maxAttempts, locked, now, attempts,
                      Batch(rows, messages, tally.(claimed := |messages|), working))
  {
    hide MayClaim, AfterMarks, Delivered, GivenUp;
    assert messages[..|messages|] == messages;
  }

  lemma CountOneMore(maxAttempts: nat, messages: seq<Message>, attempts: seq<Attempt>, i: nat)
    requires i < |messages| <= |attempts|
    ensures |Delivered(attempts, i + 1)| == |Delivered(attempts, i)| + if attempts[i].delivered then 1 else 0
    ensures |GivenUp(maxAttempts, messages[..i + 1], attempts)| == |GivenUp(maxAttempts, messages[..i], attempts)|
      + if !attempts[i].delivered && messages[i].attempts + 1 >= maxAttempts then 1 else 0
  {
    assert Delivered(attempts, i + 1) == Delivered(attempts, i) + if attempts[i].delivered then {i} else {};
    assert GivenUp(maxAttempts, messages[..i + 1], attempts) == GivenUp(maxAttempts, messages[..i], attempts)
      + if !attempts[i].delivered && messages[i].attempts + 1 >= maxAttempts then {i} else {};
  }

  lemma {:induction false} SoonestExists(rows: Table, left: set<MessageId>)
    requires left != {} && left <= rows.Keys
    ensures exists id :: id in left && forall other :: other in left ==> !Sooner(rows[other], rows[id])
  {
    var x :| x in left;
    if left == {x} {
      assert forall other :: other in left ==> !Sooner(rows[other], rows[x]);
    } else {
      var rest := left - {x};
      SoonestExists(rows, rest);
      var y :| y in rest && forall other :: other in rest ==> !Sooner(rows[other], rows[y]);
      var best := if Sooner(rows[x], rows[y]) then x else y;
      forall other | other in left
        ensures !Sooner(rows[other], rows[best])
      {
        assert other == x || other in rest;
      }
    }
  }

  function Sum(batches: seq<Batch>): Outcome {
    if batches == [] then EmptyOutcome else Sum(batches[..|batches| - 1]).Plus(batches[|batches| - 1].outcome)
  }

  lemma BalancedPlus(a: Outcome, b: Outcome)
    ensures a.Balanced() && b.Balanced() ==> a.Plus(b).Balanced()
  {
  }

  lemma SumEmpty()
    ensures Sum([]) == EmptyOutcome && EmptyOutcome.Balanced()
  {
  }

  lemma SumSnoc(batches: seq<Batch>, b: Batch)
    ensures Sum(batches + [b]) == Sum(batches).Plus(b.outcome)
  {
    assert (batches + [b])[..|batches|] == batches;
  }
}
