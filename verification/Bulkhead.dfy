/**
 * A FIFO semaphore with direct hand-off, a bounded queue, queue deadlines and
 * aborts. Callers are numbered in the order they arrive.
 */
module BulkheadModel {
  type Caller = nat

  datatype Verdict = Granted | QueueFull | TimedOut | AbortedCall
  datatype Settlement = Settlement(caller: Caller, verdict: Verdict)

  datatype Limits = Limits(maxConcurrent: nat, maxQueue: nat) {
    predicate Valid() {
      maxConcurrent >= 1
    }
  }

  /**
   * `timers` and `listeners` are the callbacks still armed for queued callers;
   * `permits` says of each permit handed out whether it was released; `settled`
   * is the order in which callers were answered.
   */
  datatype State = State(
    inFlight: int,
    waiters: seq<Caller>,
    timers: set<Caller>,
    listeners: set<Caller>,
    permits: map<Caller, bool>,
    settled: seq<Settlement>,
    arrived: nat)

  const Idle := State(0, [], {}, {}, map[], [], 0)

  function Settle(s: State, c: Caller, v: Verdict): State {
    s.(settled := s.settled + [Settlement(c, v)])
  }

  function Grant(s: State, c: Caller): State {
    Settle(s, c, Granted).(permits := s.permits[c := false])
  }

  function AfterAcquire(limits: Limits, s: State, aborted: bool, signal: bool): State {
    var c := s.arrived;
    var s := s.(arrived := s.arrived + 1);
    if aborted then Settle(s, c, AbortedCall)
    else if s.inFlight < limits.maxConcurrent then Grant(s, c).(inFlight := s.inFlight + 1)
    else if |s.waiters| >= limits.maxQueue then Settle(s, c, QueueFull)
    else s.(waiters := s.waiters + [c], timers := s.timers + {c},
            listeners := if signal then s.listeners + {c} else s.listeners)
  }

  /** The first place of `c` in the queue, or the queue's length. */
  function IndexOf(waiters: seq<Caller>, c: Caller): (k: nat)
    ensures k <= |waiters|
    ensures k < |waiters| ==> waiters[k] == c
    ensures k == |waiters| ==> c !in waiters
  {
    if waiters == [] || waiters[0] == c then 0 else 1 + IndexOf(waiters[1..], c)
  }

  /** The queue with `c` found by identity and spliced out. */
  function Without(waiters: seq<Caller>, c: Caller): seq<Caller> {
    var k := IndexOf(waiters, c);
    if k < |waiters| then waiters[..k] + waiters[k + 1..] else waiters
  }

  function Dispose(s: State, c: Caller): State {
    s.(timers := s.timers - {c}, listeners := s.listeners - {c})
  }

  function AfterLeave(s: State, c: Caller, v: Verdict): State {
    Settle(Dispose(s, c).(waiters := Without(s.waiters, c)), c, v)
  }

  function AfterHandOff(s: State): State {
    if s.waiters == [] then s.(inFlight := s.inFlight - 1)
    else Grant(Dispose(s, s.waiters[0]).(waiters := s.waiters[1..]), s.waiters[0])
  }

  /** Releasing twice is an error that changes nothing. */
  function AfterRelease(s: State, c: Caller): State
    requires c in s.permits
  {
    if s.permits[c] then s else AfterHandOff(s.(permits := s.permits[c := true]))
  }

  // ---------------------------------------------------------------------------
  // The invariant
  // ---------------------------------------------------------------------------

  function Outstanding(s: State): set<Caller> {
    set c | c in s.permits && !s.permits[c]
  }

  ghost predicate Increasing(cs: seq<Caller>) {
    forall i, j :: 0 <= i < j < |cs| ==> cs[i] < cs[j]
  }

  ghost predicate SlotInv(limits: Limits, s: State) {
    && |Outstanding(s)| == s.inFlight <= limits.maxConcurrent
    && (s.waiters != [] ==> s.inFlight == limits.maxConcurrent)
    && |s.waiters| <= limits.maxQueue
  }

  /** A queued caller has an armed timer and nobody else has; the queue is in arrival order. */
  ghost predicate QueueInv(s: State) {
    && (forall c :: c in s.timers <==> c in s.waiters)
    && (forall c :: c in s.listeners ==> c in s.waiters)
    && Increasing(s.waiters)
    && (forall i :: 0 <= i < |s.waiters| ==> s.waiters[i] < s.arrived)
  }

  predicate IsSettled(s: State, c: Caller) {
    exists i :: 0 <= i < |s.settled| && s.settled[i].caller == c
  }

  /** Every caller that arrived is waiting or settled, never both, and settled once. */
  ghost predicate SettledInv(s: State) {
    && (forall i :: 0 <= i < |s.settled| ==> s.settled[i].caller < s.arrived && s.settled[i].caller !in s.waiters)
    && (forall i, j :: 0 <= i < j < |s.settled| ==> s.settled[i].caller != s.settled[j].caller)
    && (forall c :: 0 <= c < s.arrived ==> c in s.waiters || IsSettled(s, c))
    && (forall c :: c in s.permits ==> c < s.arrived && c !in s.waiters)
  }

  /** Grants are in arrival order, and everyone granted arrived before everyone waiting. */
  ghost predicate FifoInv(s: State) {
    && (forall i, j :: 0 <= i < j < |s.settled| && s.settled[i].verdict == Granted && s.settled[j].verdict == Granted ==>
          s.settled[i].caller < s.settled[j].caller)
    && (forall i, k :: 0 <= i < |s.settled| && s.settled[i].verdict == Granted && 0 <= k < |s.waiters| ==>
          s.settled[i].caller < s.waiters[k])
  }

  ghost predicate Inv(limits: Limits, s: State) {
    SlotInv(limits, s) && QueueInv(s) && SettledInv(s) && FifoInv(s)
  }

  lemma SpliceAt(waiters: seq<Caller>, k: nat)
    requires k < |waiters|
    ensures var rest := waiters[..k] + waiters[k + 1..];
      |rest| == |waiters| - 1 && forall i :: 0 <= i < |rest| ==> rest[i] == waiters[if i < k then i else i + 1]
  {
  }

  lemma {:induction false} WithoutIsSplice(waiters: seq<Caller>, c: Caller)
    requires Increasing(waiters)
    ensures Increasing(Without(waiters, c)) && |Without(waiters, c)| <= |waiters|
    ensures forall x :: x in Without(waiters, c) <==> x in waiters && x != c
  {
    hide IndexOf;
    var k := IndexOf(waiters, c);
    if k < |waiters| {
      SpliceAt(waiters, k);
      var rest := Without(waiters, c);
      assert rest == waiters[..k] + waiters[k + 1..];
      hide Without;
      forall i, j | 0 <= i < j < |rest|
        ensures rest[i] < rest[j]
      {
        assert rest[i] == waiters[if i < k then i else i + 1] && rest[j] == waiters[if j < k then j else j + 1];
      }
      SpliceKeepsMembers(waiters, rest, k);
    }
  }

  lemma SpliceKeepsMembers(waiters: seq<Caller>, rest: seq<Caller>, k: nat)
    requires Increasing(waiters) && k < |waiters| && |rest| == |waiters| - 1
    requires forall i :: 0 <= i < |rest| ==> rest[i] == waiters[if i < k then i else i + 1]
    ensures forall x :: x in rest <==> x in waiters && x != waiters[k]
  {
    forall x | x in waiters && x != waiters[k]
      ensures x in rest
    {
      var i :| 0 <= i < |waiters| && waiters[i] == x;
      assert rest[if i < k then i else i - 1] == x;
    }
    forall x | x in rest
      ensures x in waiters && x != waiters[k]
    {
      var i :| 0 <= i < |rest| && rest[i] == x;
      assert x == waiters[if i < k then i else i + 1];
    }
  }

  /** Caller `c` leaves the queue, or never joins it, and is settled with `v`. */
  ghost predicate Settles(s: State, t: State, c: Caller, v: Verdict) {
    && t.settled == s.settled + [Settlement(c, v)]
    && ((c in s.waiters && t.arrived == s.arrived) || (c == s.arrived && t.arrived == s.arrived + 1))
    && (forall x :: x in t.waiters <==> x in s.waiters && x != c)
    && (forall x :: x in t.permits ==> x in s.permits || (x == c && v == Granted))
    && (v == Granted ==> forall x :: x in t.waiters ==> c < x)
  }

  lemma {:induction false} SettleKeepsSettled(s: State, t: State, c: Caller, v: Verdict)
    requires SettledInv(s) && QueueInv(s) && Settles(s, t, c, v)
    ensures SettledInv(t)
  {
    hide Increasing;
    forall x | 0 <= x < t.arrived
      ensures x in t.waiters || IsSettled(t, x)
    {
      if x == c {
        assert t.settled[|s.settled|].caller == c;
      } else if x !in s.waiters {
        assert IsSettled(s, x);
        var i :| 0 <= i < |s.settled| && s.settled[i].caller == x;
        assert t.settled[i].caller == x;
      }
    }
  }

  lemma {:induction false} SettleKeepsFifo(s: State, t: State, c: Caller, v: Verdict)
    requires SettledInv(s) && QueueInv(s) && FifoInv(s) && Settles(s, t, c, v)
    ensures FifoInv(t)
  {
    hide Increasing, IsSettled;
    forall i | 0 <= i < |s.settled| && s.settled[i].verdict == Granted
      ensures s.settled[i].caller < c
    {
      if c in s.waiters {
        var k :| 0 <= k < |s.waiters| && s.waiters[k] == c;
      }
    }
    forall i, k | 0 <= i < |t.settled| && t.settled[i].verdict == Granted && 0 <= k < |t.waiters|
      ensures t.settled[i].caller < t.waiters[k]
    {
      assert t.waiters[k] in t.waiters;
      if i < |s.settled| {
        var j :| 0 <= j < |s.waiters| && s.waiters[j] == t.waiters[k];
      }
    }
  }

  // ---------------------------------------------------------------------------
  // Events
  // ---------------------------------------------------------------------------

  datatype Event =
    | Acquire(aborted: bool, signal: bool)
    | Release(permit: Caller)
    | Timeout(waiter: Caller)
    | Abort(waiter: Caller)

  /** Only a permit that exists can be released; only an armed callback can fire. */
  predicate CanHappen(s: State, e: Event) {
    match e
    case Acquire(_, _) => true
    case Release(permit) => permit in s.permits
    case Timeout(waiter) => waiter in s.timers
    case Abort(waiter) => waiter in s.listeners
  }

  function After(limits: Limits, s: State, e: Event): State
    requires CanHappen(s, e)
  {
    match e
    case Acquire(aborted, signal) => AfterAcquire(limits, s, aborted, signal)
    case Release(permit) => AfterRelease(s, permit)
    case Timeout(waiter) => AfterLeave(s, waiter, TimedOut)
    case Abort(waiter) => AfterLeave(s, waiter, AbortedCall)
  }

  lemma {:induction false} AcquireKeepsInv(limits: Limits, s: State, aborted: bool, signal: bool)
    requires Inv(limits, s)
    ensures Inv(limits, AfterAcquire(limits, s, aborted, signal))
  {
    hide SettledInv, FifoInv, Outstanding, Increasing;
    var t := AfterAcquire(limits, s, aborted, signal);
    var c := s.arrived;
    PermitsAreOld(s);
    PermitsCount(s, t, c);
    if !aborted && s.inFlight < limits.maxConcurrent {
      SettleKeepsSettled(s, t, c, Granted);
      SettleKeepsFifo(s, t, c, Granted);
    } else if aborted || |s.waiters| >= limits.maxQueue {
      var v := if aborted then AbortedCall else QueueFull;
      SettleKeepsSettled(s, t, c, v);
      SettleKeepsFifo(s, t, c, v);
    } else {
      EnqueueKeepsQueue(s.waiters, c);
      EnqueueKeepsHistory(s, t);
    }
  }

  lemma EnqueueKeepsQueue(waiters: seq<Caller>, c: Caller)
    requires Increasing(waiters) && forall i :: 0 <= i < |waiters| ==> waiters[i] < c
    ensures Increasing(waiters + [c])
    ensures forall x :: x in waiters + [c] <==> x in waiters || x == c
  {
  }

  /** Handing out one more permit adds one to the count; releasing one takes one away. */
  lemma PermitsCount(s: State, t: State, c: Caller)
    ensures t.permits == s.permits ==> Outstanding(t) == Outstanding(s)
    ensures c !in s.permits && t.permits == s.permits[c := false] ==> |Outstanding(t)| == |Outstanding(s)| + 1
    ensures c in s.permits && !s.permits[c] && t.permits == s.permits[c := true] ==>
      |Outstanding(t)| == |Outstanding(s)| - 1
  {
    if c !in s.permits && t.permits == s.permits[c := false] {
      assert Outstanding(t) == Outstanding(s) + {c};
    } else if c in s.permits && !s.permits[c] && t.permits == s.permits[c := true] {
      assert Outstanding(t) == Outstanding(s) - {c};
    }
  }

  lemma PermitsAreOld(s: State)
    requires SettledInv(s)
    ensures forall c :: c in s.permits ==> c < s.arrived && c !in s.waiters
  {
  }

  lemma {:induction false} EnqueueKeepsHistory(s: State, t: State)
    requires SettledInv(s) && FifoInv(s)
    requires t.waiters == s.waiters + [s.arrived] && t.arrived == s.arrived + 1
    requires t.settled == s.settled && t.permits == s.permits
    ensures SettledInv(t) && FifoInv(t)
  {
    forall x | 0 <= x < t.arrived
      ensures x in t.waiters || IsSettled(t, x)
    {
      if x == s.arrived {
        assert t.waiters[|s.waiters|] == x;
      } else if x !in s.waiters {
        assert IsSettled(s, x);
      }
    }
  }

  lemma {:induction false} LeaveKeepsInv(limits: Limits, s: State, c: Caller, v: Verdict)
    requires Inv(limits, s) && c in s.waiters && v != Granted
    ensures Inv(limits, AfterLeave(s, c, v))
  {
    hide SettledInv, FifoInv, Without, Increasing, Outstanding;
    var t := AfterLeave(s, c, v);
    WithoutIsSplice(s.waiters, c);
    PermitsCount(s, t, c);
    assert s.waiters != [];
    SettleKeepsSettled(s, t, c, v);
    SettleKeepsFifo(s, t, c, v);
    assert forall i :: 0 <= i < |t.waiters| ==> t.waiters[i] in t.waiters;
  }

  lemma {:induction false} ReleaseKeepsInv(limits: Limits, s: State, c: Caller)
    requires Inv(limits, s) && c in s.permits
    ensures Inv(limits, AfterRelease(s, c))
  {
    hide SettledInv, FifoInv, Outstanding;
    PermitsAreOld(s);
    if !s.permits[c] {
      var t := AfterRelease(s, c);
      var mid := s.(permits := s.permits[c := true]);
      PermitsCount(s, mid, c);
      PermitChangeKeepsHistory(s, mid);
      if s.waiters == [] {
        PermitsCount(mid, t, c);
        PermitChangeKeepsHistory(mid, t);
      } else {
        var head := s.waiters[0];
        PermitsCount(mid, t, head);
        assert forall x :: x in s.waiters <==> x == head || x in s.waiters[1..];
        assert forall x :: x in s.waiters[1..] ==> head < x;
        SettleKeepsSettled(mid, t, head, Granted);
        SettleKeepsFifo(mid, t, head, Granted);
      }
    }
  }

  lemma PermitChangeKeepsHistory(s: State, t: State)
    requires SettledInv(s) && FifoInv(s)
    requires t.waiters == s.waiters && t.settled == s.settled && t.arrived == s.arrived
    requires t.permits.Keys == s.permits.Keys
    ensures SettledInv(t) && FifoInv(t)
  {
    forall c | 0 <= c < t.arrived
      ensures c in t.waiters || IsSettled(t, c)
    {
      assert c in s.waiters || IsSettled(s, c);
    }
    assert forall c :: c in t.permits ==> c in s.permits.Keys;
  }

  // ---------------------------------------------------------------------------
  // Runs
  // ---------------------------------------------------------------------------

  datatype Run = Run(states: seq<State>, events: seq<Event>)

  ghost predicate RunStep(limits: Limits, run: Run, n: nat)
    requires |run.states| == |run.events| + 1 && n < |run.events|
  {
    CanHappen(run.states[n], run.events[n]) && run.states[n + 1] == After(limits, run.states[n], run.events[n])
  }

  ghost predicate IsRun(limits: Limits, run: Run) {
    && |run.states| == |run.events| + 1
    && run.states[0] == Idle
    && forall n :: 0 <= n < |run.events| ==> RunStep(limits, run, n)
  }

  lemma {:induction false} InvHolds(limits: Limits, run: Run, n: nat)
    requires limits.Valid() && IsRun(limits, run) && n <= |run.events|
    ensures Inv(limits, run.states[n])
  {
    hide AfterAcquire, AfterRelease, AfterLeave;
    if n == 0 {
      assert Outstanding(Idle) == {};
    } else {
      InvHolds(limits, run, n - 1);
      assert RunStep(limits, run, n - 1);
      var s := run.states[n - 1];
      hide Inv;
      match run.events[n - 1]
      case Acquire(aborted, signal) => AcquireKeepsInv(limits, s, aborted, signal);
      case Release(permit) => ReleaseKeepsInv(limits, s, permit);
      case Timeout(waiter) => ArmedIsWaiting(limits, s, waiter); LeaveKeepsInv(limits, s, waiter, TimedOut);
      case Abort(waiter) => ArmedIsWaiting(limits, s, waiter); LeaveKeepsInv(limits, s, waiter, AbortedCall);
    }
  }

  lemma ArmedIsWaiting(limits: Limits, s: State, c: Caller)
    requires Inv(limits, s) && (c in s.timers || c in s.listeners)
    ensures c in s.waiters
  {
  }

  /**
   * Capacity, over every sequence of events: the permits not yet released are
   * exactly the slots in flight and never more than the limit; somebody waits
   * only while every slot is taken; the queue keeps its bound.
   */
  lemma CapacityHolds(limits: Limits, run: Run, n: nat)
    requires limits.Valid() && IsRun(limits, run) && n <= |run.events|
    ensures var s := run.states[n];
      && |Outstanding(s)| == s.inFlight <= limits.maxConcurrent
      && (s.waiters != [] ==> s.inFlight == limits.maxConcurrent)
      && |s.waiters| <= limits.maxQueue
  {
    InvHolds(limits, run, n);
  }

  /** Each caller that has arrived is still queued or was answered exactly once. */
  lemma EachCallerSettlesOnce(limits: Limits, run: Run, n: nat, c: Caller)
    requires limits.Valid() && IsRun(limits, run) && n <= |run.events| && c < run.states[n].arrived
    ensures var s := run.states[n];
      && (c in s.waiters <==> !IsSettled(s, c))
      && (forall i, j :: 0 <= i < j < |s.settled| ==> s.settled[i].caller != s.settled[j].caller)
  {
    InvHolds(limits, run, n);
  }

  /** Slots are granted in arrival order, and nobody granted arrived after anybody still waiting. */
  lemma FirstComeFirstServed(limits: Limits, run: Run, n: nat)
    requires limits.Valid() && IsRun(limits, run) && n <= |run.events|
    ensures var s := run.states[n];
      && (forall i, j :: 0 <= i < j < |s.settled| && s.settled[i].verdict == Granted && s.settled[j].verdict == Granted ==>
            s.settled[i].caller < s.settled[j].caller)
      && (forall i, c :: 0 <= i < |s.settled| && s.settled[i].verdict == Granted && c in s.waiters ==>
            s.settled[i].caller < c)
  {
    InvHolds(limits, run, n);
    var s := run.states[n];
    forall i, c | 0 <= i < |s.settled| && s.settled[i].verdict == Granted && c in s.waiters
      ensures s.settled[i].caller < c
    {
      var k :| 0 <= k < |s.waiters| && s.waiters[k] == c;
    }
  }

  /**
   * What a caller is told on arrival, from the permits not yet released: a slot
   * if one is free, a place at the end of the queue if all are taken, and a
   * refusal only with every slot taken and the queue at its bound.
   */
  lemma AcquireIsAnswered(limits: Limits, run: Run, n: nat)
    requires limits.Valid() && IsRun(limits, run) && n < |run.events| && run.events[n].Acquire?
    ensures var s, t, c := run.states[n], run.states[n + 1], run.states[n].arrived;
      var full := |Outstanding(s)| == limits.maxConcurrent;
      && t.arrived == c + 1
      && (run.events[n].aborted ==>
            t.settled == s.settled + [Settlement(c, AbortedCall)] && t.waiters == s.waiters && t.permits == s.permits)
      && (!run.events[n].aborted && !full ==>
            && t.settled == s.settled + [Settlement(c, Granted)] && t.waiters == s.waiters
            && Outstanding(t) == Outstanding(s) + {c})
      && (!run.events[n].aborted && full && |s.waiters| == limits.maxQueue ==>
            t.settled == s.settled + [Settlement(c, QueueFull)] && t.waiters == s.waiters && t.permits == s.permits)
      && (!run.events[n].aborted && full && |s.waiters| < limits.maxQueue ==>
            && t.settled == s.settled && t.waiters == s.waiters + [c] && t.permits == s.permits
            && t.timers == s.timers + {c} && (c in t.listeners <==> run.events[n].signal))
  {
    InvHolds(limits, run, n);
    assert RunStep(limits, run, n);
  }

  /** A permit given back goes to whoever has waited longest; with nobody waiting a slot is free again. */
  lemma ReleaseIsHandedOn(limits: Limits, run: Run, n: nat)
    requires limits.Valid() && IsRun(limits, run) && n < |run.events| && run.events[n].Release?
    ensures var s, t, p := run.states[n], run.states[n + 1], run.events[n].permit;
      && (p !in Outstanding(s) ==> t == s)
      && (p in Outstanding(s) && s.waiters == [] ==>
            Outstanding(t) == Outstanding(s) - {p} && t.waiters == [] && t.settled == s.settled)
      && (p in Outstanding(s) && s.waiters != [] ==>
            && Outstanding(t) == Outstanding(s) - {p} + {s.waiters[0]} && t.waiters == s.waiters[1..]
            && t.settled == s.settled + [Settlement(s.waiters[0], Granted)])
  {
    InvHolds(limits, run, n);
    assert RunStep(limits, run, n);
    var s := run.states[n];
    assert s.waiters != [] ==> s.waiters[0] in s.waiters;
  }

  /** A deadline or an abort takes its own caller out of the queue, wherever it stands, and nobody else. */
  lemma LeaverIsAnswered(limits: Limits, run: Run, n: nat, c: Caller)
    requires limits.Valid() && IsRun(limits, run) && n < |run.events|
    requires run.events[n] == Timeout(c) || run.events[n] == Abort(c)
    ensures var s, t := run.states[n], run.states[n + 1];
      && t.settled == s.settled + [Settlement(c, if run.events[n].Timeout? then TimedOut else AbortedCall)]
      && c in s.waiters && Increasing(t.waiters)
      && (forall x :: x in t.waiters <==> x in s.waiters && x != c)
      && t.permits == s.permits
  {
    hide Without;
    InvHolds(limits, run, n);
    assert RunStep(limits, run, n);
    WithoutIsSplice(run.states[n].waiters, c);
  }
}

/** The bulkhead object: counters, a queue and callbacks, changed in place. */
module BulkheadClass {
  import opened BulkheadModel

  class Bulkhead {
    const limits: Limits
    var inFlightCount: int
    var waiters: seq<Caller>
    var timers: set<Caller>
    var listeners: set<Caller>
    var permits: map<Caller, bool>
    var settled: seq<Settlement>
    var arrived: nat

    ghost function Now(): State
      reads this
    {
      State(inFlightCount, waiters, timers, listeners, permits, settled, arrived)
    }

    /** The program throws a RangeError for a concurrency below one. */
    constructor (limits: Limits)
      requires limits.Valid()
      ensures this.limits == limits && Now() == Idle
    {
      this.limits := limits;
      inFlightCount, waiters, timers, listeners := 0, [], {}, {};
      permits, settled, arrived := map[], [], 0;
    }

    method DoAcquire(aborted: bool, signal: bool) returns (caller: Caller)
      modifies this
      ensures caller == old(arrived) && Now() == AfterAcquire(limits, old(Now()), aborted, signal)
    {
      caller := arrived;
      arrived := arrived + 1;
      if aborted {
        settled := settled + [Settlement(caller, AbortedCall)];
        return;
      }
      if inFlightCount < limits.maxConcurrent {
        inFlightCount := inFlightCount + 1;
        CreatePermit(caller);
        return;
      }
      if |waiters| >= limits.maxQueue {
        settled := settled + [Settlement(caller, QueueFull)];
        return;
      }
      timers := timers + {caller};
      if signal {
        listeners := listeners + {caller};
      }
      waiters := waiters + [caller];
    }

    /** The caller's promise resolves with a new, unreleased permit. */
    method CreatePermit(caller: Caller)
      modifies this`permits, this`settled
      ensures permits == old(permits)[caller := false] && settled == old(settled) + [Settlement(caller, Granted)]
    {
      permits := permits[caller := false];
      settled := settled + [Settlement(caller, Granted)];
    }

    /** Scans for the waiter and splices it out. */
    method Leave(waiter: Caller)
      modifies this`waiters
      ensures waiters == Without(old(waiters), waiter)
    {
      var index := FindWaiter(waiters, waiter);
      if index < |waiters| {
        waiters := waiters[..index] + waiters[index + 1..];
      }
    }

    method FireTimeout(waiter: Caller)
      requires waiter in timers
      modifies this
      ensures Now() == AfterLeave(old(Now()), waiter, TimedOut)
    {
      timers := timers - {waiter};
      Leave(waiter);
      listeners := listeners - {waiter};
      settled := settled + [Settlement(waiter, TimedOut)];
    }

    method FireAbort(waiter: Caller)
      requires waiter in listeners
      modifies this
      ensures Now() == AfterLeave(old(Now()), waiter, AbortedCall)
    {
      listeners := listeners - {waiter};
      Leave(waiter);
      timers := timers - {waiter};
      settled := settled + [Settlement(waiter, AbortedCall)];
    }

    /** `ok` is false where the program throws: the permit was released before. */
    method DoRelease(permit: Caller) returns (ok: bool)
      requires permit in permits
      modifies this
      ensures ok == !old(permits)[permit] && Now() == AfterRelease(old(Now()), permit)
    {
      if permits[permit] {
        return false;
      }
      permits := permits[permit := true];
      HandOff();
      return true;
    }

    method HandOff()
      modifies this
      ensures Now() == AfterHandOff(old(Now()))
    {
      if waiters == [] {
        inFlightCount := inFlightCount - 1;
        return;
      }
      var next := waiters[0];
      waiters := waiters[1..];
      timers := timers - {next};
      listeners := listeners - {next};
      CreatePermit(next);
    }
  }

  method FindWaiter(waiters: seq<Caller>, waiter: Caller) returns (index: nat)
    ensures index == IndexOf(waiters, waiter)
  {
    index := 0;
    while index < |waiters| && waiters[index] != waiter
      invariant index <= |waiters|
      invariant IndexOf(waiters, waiter) == index + IndexOf(waiters[index..], waiter)
    {
      assert waiters[index..][1..] == waiters[index + 1..];
      index := index + 1;
    }
  }
}
