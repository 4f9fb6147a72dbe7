/**
 * Every retry of a claim is charged to somebody else: the loop only goes round
 * when another actor wrote the same key between two statements of the attempt.
 */
module IdempotencyRetries {
  import opened IdempotencyProtocol
  import opened IdempotencySql
  import opened IdempotencyInterleaving

  /** Writes to `slot` by anyone but call `n`, at log positions [lo, hi). */
  function Foreign(log: seq<Write>, lo: nat, hi: nat, slot: Slot, n: nat): nat
    requires lo <= hi <= |log|
    decreases hi
  {
    if lo == hi then 0
    else Foreign(log, lo, hi - 1, slot, n)
         + (if slot in log[hi - 1].slots && log[hi - 1].writer != ByCall(n) then 1 else 0)
  }

  lemma {:induction false} ForeignIgnoresLater(
    log: seq<Write>, more: seq<Write>, lo: nat, hi: nat, slot: Slot, n: nat)
    requires lo <= hi <= |log|
    ensures Foreign(log + more, lo, hi, slot, n) == Foreign(log, lo, hi, slot, n)
    decreases hi
  {
    if lo != hi {
      ForeignIgnoresLater(log, more, lo, hi - 1, slot, n);
      assert (log + more)[hi - 1] == log[hi - 1];
    }
  }

  lemma {:induction false} ForeignSplits(log: seq<Write>, a: nat, b: nat, c: nat, slot: Slot, n: nat)
    requires a <= b <= c <= |log|
    ensures Foreign(log, a, c, slot, n) == Foreign(log, a, b, slot, n) + Foreign(log, b, c, slot, n)
    decreases c
  {
    if b < c {
      ForeignSplits(log, a, b, c - 1, slot, n);
    }
  }

  /** The attempts a call has used beyond its first are paid for by foreign writes. */
  ghost predicate Charged(cfg: Config, db: Db, n: nat)
    requires n in db.calls
  {
    var c := db.calls[n];
    var slot := SlotOf(c.request);
    && 1 <= c.attempt <= CLAIM_ATTEMPTS
    && c.begun <= c.lastMark <= |db.log|
    && (match c.pc
        case AtInsert => Foreign(db.log, c.begun, c.lastMark, slot, n) >= c.attempt - 1
        case AtRead =>
          && c.begun <= c.insertMark <= c.lastMark
          && Foreign(db.log, c.begun, c.insertMark, slot, n) >= c.attempt - 1
          && (Foreign(db.log, c.insertMark, |db.log|, slot, n) == 0 ==> slot in db.rows)
        case AtTakeover =>
          && c.begun <= c.insertMark <= c.lastMark
          && Foreign(db.log, c.begun, c.insertMark, slot, n) >= c.attempt - 1
          && (Foreign(db.log, c.lastMark, |db.log|, slot, n) == 0 ==> MayTakeOver(cfg, db.rows, slot, db.now))
        case Answered(_) => Foreign(db.log, c.begun, c.lastMark, slot, n) >= c.attempt - 1
        case Contended => Foreign(db.log, c.begun, c.lastMark, slot, n) >= CLAIM_ATTEMPTS)
  }

  /** A step by somebody else: the call itself is untouched. */
  lemma OthersKeepCharged(cfg: Config, db: Db, after: Db, w: seq<Write>, n: nat)
    requires n in db.calls && n in after.calls && after.calls[n] == db.calls[n]
    requires Charged(cfg, db, n)
    requires after.log == db.log + w && |w| <= 1 && after.now >= db.now
    requires
      || (|w| == 1 && SlotOf(db.calls[n].request) in w[0].slots && w[0].writer != ByCall(n))
      || SameSlot(db.rows, after.rows, SlotOf(db.calls[n].request))
    ensures Charged(cfg, after, n)
  {
    var c := db.calls[n];
    var slot := SlotOf(c.request);
    ForeignIgnoresLater(db.log, w, c.begun, c.lastMark, slot, n);
    if c.pc == AtRead || c.pc == AtTakeover {
      ForeignIgnoresLater(db.log, w, c.begun, c.insertMark, slot, n);
      ForeignIgnoresLater(db.log, w, c.insertMark, |db.log|, slot, n);
      ForeignIgnoresLater(db.log, w, c.lastMark, |db.log|, slot, n);
    }
  }

  /** A statement of the call itself. */
  lemma OwnStepKeepsCharged(cfg: Config, db: Db, l: Label)
    requires l.RunInsert? || l.RunRead? || l.RunTakeover?
    requires CanRun(db, l) && Charged(cfg, db, l.call)
    ensures Charged(cfg, After(cfg, db, l), l.call)
  {
    hide AfterInsert, AfterTakeover, ResultOfRead;
    var n := l.call;
    var c := db.calls[n];
    var slot := SlotOf(c.request);
    var log, end := db.log, |db.log|;
    var w := [Write(ByCall(n), {slot})];
    if l.RunInsert? {
      ForeignSplits(log, c.begun, c.lastMark, end, slot, n);
      ForeignIgnoresLater(log, w, c.begun, end, slot, n);
      ForeignIgnoresLater(log, w, end, end, slot, n);
    } else {
      ForeignSplits(log, c.begun, c.insertMark, end, slot, n);
      ForeignSplits(log, c.insertMark, c.lastMark, end, slot, n);
      ForeignIgnoresLater(log, w, c.begun, end, slot, n);
    }
  }

  lemma StepKeepsCharged(cfg: Config, db: Db, l: Label, n: nat)
    requires CanRun(db, l)
    requires n in db.calls ==> Charged(cfg, db, n)
    requires n in After(cfg, db, l).calls
    ensures Charged(cfg, After(cfg, db, l), n)
  {
    hide After, Charged;
    if (l.RunInsert? || l.RunRead? || l.RunTakeover?) && l.call == n {
      assert n in db.calls;
      OwnStepKeepsCharged(cfg, db, l);
    } else if n in db.calls {
      var w := OthersStep(cfg, db, l, n);
      OthersKeepCharged(cfg, db, After(cfg, db, l), w, n);
    } else {
      BeginIsCharged(cfg, db, l, n);
    }
  }

  lemma BeginIsCharged(cfg: Config, db: Db, l: Label, n: nat)
    requires CanRun(db, l) && n !in db.calls && n in After(cfg, db, l).calls
    ensures Charged(cfg, After(cfg, db, l), n)
  {
    hide AfterInsert, AfterTakeover, ResultOfRead;
  }

  /** What a step that is not the call's own leaves of it, and what it writes. */
  lemma OthersStep(cfg: Config, db: Db, l: Label, n: nat) returns (w: seq<Write>)
    requires CanRun(db, l) && n in db.calls && !((l.RunInsert? || l.RunRead? || l.RunTakeover?) && l.call == n)
    ensures var after, slot := After(cfg, db, l), SlotOf(db.calls[n].request);
      && n in after.calls && after.calls[n] == db.calls[n]
      && after.log == db.log + w && |w| <= 1 && after.now >= db.now
      && ((|w| == 1 && slot in w[0].slots && w[0].writer != ByCall(n)) || SameSlot(db.rows, after.rows, slot))
  {
    hide ResultOfRead, RowExpired, RowStale;
    var after := After(cfg, db, l);
    assert |after.log| <= |db.log| + 1 && after.log[..|db.log|] == db.log;
    w := after.log[|db.log|..];
  }

  /** In every reachable state every call's retries are paid for. */
  lemma {:induction false} RetriesAreCharged(cfg: Config, run: Run, k: nat, n: nat)
    requires IsRun(cfg, run) && k <= |run.labels| && n in run.dbs[k].calls
    ensures Charged(cfg, run.dbs[k], n)
  {
    if k > 0 {
      assert RunStep(cfg, run, k - 1);
      if n in run.dbs[k - 1].calls {
        RetriesAreCharged(cfg, run, k - 1, n);
      }
      StepKeepsCharged(cfg, run.dbs[k - 1], run.labels[k - 1], n);
    }
  }

  /**
   * A claim that answers in its attempt k, or gives up, met at least k - 1, or
   * three, writes of others to its key between its first and last statements;
   * so a claim nobody interferes with answers in its first attempt.
   */
  lemma NoInterferenceNoRetry(cfg: Config, run: Run, k: nat, n: nat)
    requires IsRun(cfg, run) && k <= |run.labels| && n in run.dbs[k].calls
    ensures var db := run.dbs[k];
      var c := db.calls[n];
      && c.begun <= c.lastMark <= |db.log|
      && (c.pc.Answered? ==> Foreign(db.log, c.begun, c.lastMark, SlotOf(c.request), n) >= c.attempt - 1)
      && (c.pc.Contended? ==> Foreign(db.log, c.begun, c.lastMark, SlotOf(c.request), n) >= 3)
      && (Foreign(db.log, c.begun, c.lastMark, SlotOf(c.request), n) == 0 ==>
            !c.pc.Contended? && (c.pc.Answered? ==> c.attempt == 1))
  {
    RetriesAreCharged(cfg, run, k, n);
  }

  /** How many INSERT statements the call has sent in the first `k` steps. */
  function Inserts(labels: seq<Label>, k: nat, n: nat): nat
    requires k <= |labels|
  {
    if k == 0 then 0 else Inserts(labels, k - 1, n) + if labels[k - 1] == RunInsert(n) then 1 else 0
  }

  /** A call has sent one INSERT in each attempt it has made, and gives up after the third. */
  ghost predicate Tried(db: Db, n: nat, inserts: nat) {
    if n !in db.calls then inserts == 0
    else
      var c := db.calls[n];
      && inserts == (if c.pc == AtInsert then c.attempt - 1 else c.attempt)
      && 1 <= c.attempt <= 3 && (c.pc == Contended ==> c.attempt == 3)
  }

  lemma StepKeepsTried(cfg: Config, db: Db, l: Label, n: nat, inserts: nat)
    requires CanRun(db, l) && Tried(db, n, inserts)
    ensures Tried(After(cfg, db, l), n, inserts + if l == RunInsert(n) then 1 else 0)
  {
    hide AfterInsert, AfterTakeover, AfterComplete, AfterRelease, ResultOfRead, MayTakeOver, Holds, ExpiredSlots;
  }

  lemma {:induction false} InsertsAreAttempts(cfg: Config, run: Run, k: nat, n: nat)
    requires IsRun(cfg, run) && k <= |run.labels|
    ensures Tried(run.dbs[k], n, Inserts(run.labels, k, n))
  {
    hide After;
    if k > 0 {
      InsertsAreAttempts(cfg, run, k - 1, n);
      assert RunStep(cfg, run, k - 1);
      StepKeepsTried(cfg, run.dbs[k - 1], run.labels[k - 1], n, Inserts(run.labels, k - 1, n));
    }
  }

  /** A claim tries at most three times, and gives up after the third try and not before. */
  lemma AtMostThreeTries(cfg: Config, run: Run, k: nat, n: nat)
    requires IsRun(cfg, run) && k <= |run.labels|
    ensures Inserts(run.labels, k, n) <= 3
    ensures n in run.dbs[k].calls && run.dbs[k].calls[n].pc == Contended ==> Inserts(run.labels, k, n) == 3
  {
    InsertsAreAttempts(cfg, run, k, n);
  }
}
