/** Retrying a rejected commit within one allowance, and the counters' independent checks. */
module CommitBackpressure {
  import opened Basics
  import opened Accounting
  import opened World

  const WAIT_SLICE := SECOND

  type u64 = n: nat | n <= MAX_U64

  datatype Stall = NoStall | StalledBy(detail: string)

  datatype Tally = Tally(
    attempts: nat,
    committed: nat,
    stalls: nat,
    waits: nat,
    timeouts: nat,
    waitStalls: nat,
    elapsed: u64,
    lastStall: Stall)

  /** Nothing has been counted yet. */
  predicate Unused(t: Tally) {
    && t.attempts == t.committed == t.stalls == t.waits == t.timeouts == t.waitStalls == t.elapsed == 0
    && t.lastStall.NoStall?
  }

  datatype CommitError = Exhausted(lastStall: Stall) | Original(error: string)

  class Observations {
    var attempts: nat
    var committed: nat
    var stalls: nat
    var waits: nat
    var timeouts: nat
    var waitStalls: nat
    var elapsed: u64
    var lastStall: Stall

    constructor ()
      ensures Unused(Values())
    {
      attempts, committed, stalls, waits := 0, 0, 0, 0;
      timeouts, waitStalls, elapsed, lastStall := 0, 0, 0, NoStall;
    }

    function Values(): Tally
      reads this
    {
      Tally(attempts, committed, stalls, waits, timeouts, waitStalls, elapsed, lastStall)
    }

    method RecordStall(detail: string)
      modifies this
      ensures Values() == old(Values()).(stalls := old(stalls) + 1, lastStall := StalledBy(detail))
    {
      stalls := stalls + 1;
      lastStall := StalledBy(detail);
    }
  }

  // ---------------------------------------------------------------- what the counters count

  function Saturated(a: u64, b: nat): u64 {
    Min(MAX_U64, a + Min(b, MAX_U64))
  }

  function CountedCommit(t: Tally, reply: CommitReply): Tally {
    match reply
    case Committed => t.(attempts := t.attempts + 1, committed := t.committed + 1)
    case CommitStalled(detail) => t.(attempts := t.attempts + 1, stalls := t.stalls + 1, lastStall := StalledBy(detail))
    case CommitFailed(_) => t.(attempts := t.attempts + 1)
  }

  function CountedWait(t: Tally, reply: WaitReply): Tally {
    match reply
    case TimedOut => t.(waits := t.waits + 1, timeouts := t.timeouts + 1)
    case WaitStalled(detail) => t.(waits := t.waits + 1, waitStalls := t.waitStalls + 1, lastStall := StalledBy(detail))
    case _ => t.(waits := t.waits + 1)
  }

  /** What a conversation adds to the counters; a reading right after a wait closes its interval. */
  function Counted(t: Tally, calls: History): Tally {
    match calls
    case Start => t
    case After(earlier, Commit(reply)) => CountedCommit(Counted(t, earlier), reply)
    case After(earlier, Wait(_, reply)) => CountedWait(Counted(t, earlier), reply)
    case After(earlier, Read(at)) =>
      var before := Counted(t, earlier);
      if earlier.After? && earlier.call.Wait? && earlier.earlier.After? && earlier.earlier.call.Read?
      then before.(elapsed := Saturated(before.elapsed, Since(at, earlier.earlier.call.at)))
      else before
    case After(earlier, _) => Counted(t, earlier)
  }

  predicate IsAttempt(c: Call) {
    c.Commit?
  }

  predicate IsAccepted(c: Call) {
    c == Commit(Committed)
  }

  predicate IsRejected(c: Call) {
    c.Commit? && c.committed.CommitStalled?
  }

  predicate IsWait(c: Call) {
    c.Wait?
  }

  predicate IsTimeout(c: Call) {
    c.Wait? && c.waited.TimedOut?
  }

  predicate IsWaitStall(c: Call) {
    c.Wait? && c.waited.WaitStalled?
  }

  /** The latest stall of a conversation, from a commit or from a wait. */
  function LatestStall(calls: History): Stall {
    match calls
    case Start => NoStall
    case After(_, Commit(CommitStalled(detail))) => StalledBy(detail)
    case After(_, Wait(_, WaitStalled(detail))) => StalledBy(detail)
    case After(earlier, _) => LatestStall(earlier)
  }

  /** Each counter counts its calls, and the last stall is the latest one. */
  lemma {:induction false} CountersCountCalls(t: Tally, calls: History)
    ensures
      var u := Counted(t, calls);
      && u.attempts == t.attempts + CountOf(calls, IsAttempt) && u.committed == t.committed + CountOf(calls, IsAccepted)
      && u.stalls == t.stalls + CountOf(calls, IsRejected) && u.waits == t.waits + CountOf(calls, IsWait)
      && u.timeouts == t.timeouts + CountOf(calls, IsTimeout)
      && u.waitStalls == t.waitStalls + CountOf(calls, IsWaitStall)
      && u.lastStall == if LatestStall(calls).NoStall? then t.lastStall else LatestStall(calls)
  {
    if calls.After? { CountersCountCalls(t, calls.earlier); }
  }

  /** Time between the readings around each wait. */
  function TimeWaiting(calls: History): nat {
    match calls
    case Start => 0
    case After(After(After(_, Read(from)), Wait(_, _)), Read(to)) => TimeWaiting(calls.earlier) + Since(to, from)
    case After(earlier, _) => TimeWaiting(earlier)
  }

  /** The saturating sum of the waits is their whole time, cut off once at 64 bits. */
  lemma {:induction false} ElapsedIsTimeWaiting(t: Tally, calls: History)
    ensures Counted(t, calls).elapsed == Min(t.elapsed + TimeWaiting(calls), MAX_U64)
  {
    if calls.After? { ElapsedIsTimeWaiting(t, calls.earlier); }
  }

  // ---------------------------------------------------------------- the law of a finished call

  /** `k` strict successes lie between the two tallies. */
  predicate Finished(before: Tally, after: Tally, k: nat) {
    && after.committed == before.committed + k
    && Paired(before, after)
    && after.attempts - before.attempts == k + (after.stalls - before.stalls)
    && after.waits - before.waits ==
       (after.stalls - before.stalls) + (after.timeouts - before.timeouts) + (after.waitStalls - before.waitStalls)
  }

  /** Counters only grow, and waiting leaves a trace only after a new stall. */
  predicate Paired(before: Tally, after: Tally) {
    && before.attempts <= after.attempts && before.stalls <= after.stalls && before.waits <= after.waits
    && before.timeouts <= after.timeouts && before.waitStalls <= after.waitStalls && before.elapsed <= after.elapsed
    && (after.stalls == before.stalls ==>
          after.waits == before.waits && after.timeouts == before.timeouts && after.waitStalls == before.waitStalls
          && after.elapsed == before.elapsed && after.lastStall == before.lastStall)
    && (after.stalls > before.stalls ==> after.lastStall.StalledBy? && after.lastStall.detail != "")
  }

  /** What `k` strict successes leave in a tally that was unused. */
  predicate Completed(t: Tally, k: nat) {
    && t.committed == k && t.attempts == k + t.stalls && t.waits == t.stalls + t.timeouts + t.waitStalls
    && if t.stalls == 0 then t.waits == 0 && t.elapsed == 0 && t.lastStall.NoStall?
       else t.lastStall.StalledBy? && t.lastStall.detail != ""
  }

  lemma CompletedExactly(start: Tally, t: Tally, k: nat)
    requires Unused(start)
    ensures Finished(start, t, k) <==> Completed(t, k)
  {
  }

  lemma CompletedChains(t: Tally, more: Tally, j: nat, k: nat)
    requires Completed(t, j) && Finished(t, more, k)
    ensures Completed(more, j + k)
  {
  }

  lemma FinishedChains(a: Tally, b: Tally, c: Tally, j: nat, k: nat)
    requires Finished(a, b, j) && Finished(b, c, k)
    ensures Finished(a, c, j + k)
  {
  }

  // ---------------------------------------------------------------- the loop

  /** The counters and the record of calls are in step. */
  ghost predicate InStep(o: Observations, w: Environment, base: History, start: Tally, calls: History, deadline: nat)
    reads o, w
  {
    && w.Streams() && w.log == Append(base, calls) && Admitted(calls, deadline, 1_000_000_000)
    && o.Values() == Counted(start, calls)
  }

  predicate AfterRead(calls: History, at: nat) {
    calls.After? && calls.call == Read(at)
  }

  /** No wait is open. */
  predicate Rested(calls: History) {
    calls.After? ==> !calls.call.Wait?
  }

  method ReadClock(ghost deadline: nat, ghost o: Observations, w: Environment, ghost base: History, ghost start: Tally,
                   ghost calls: History)
    returns (t: nat, ghost more: History)
    requires InStep(o, w, base, start, calls, deadline) && Rested(calls)
    modifies w
    ensures InStep(o, w, base, start, more, deadline) && more == After(calls, Read(t))
    ensures t == w.Reading(old(w.ticks)) && w.ticks == old(w.ticks) + 1
    ensures w.attempted == old(w.attempted) && w.waited == old(w.waited)
    ensures w.queried == old(w.queried) && w.flushed == old(w.flushed)
  {
    t := w.Now();
    more := After(calls, Read(t));
  }

  method WaitOnce(deadline: nat, waitingAt: nat, o: Observations, w: Environment, ghost base: History,
                  ghost start: Tally, ghost calls: History)
    returns (reply: WaitReply, ghost more: History)
    requires InStep(o, w, base, start, calls, deadline) && AfterRead(calls, waitingAt) && waitingAt < deadline
    modifies o, w
    ensures InStep(o, w, base, start, more, deadline) && Rested(more)
    ensures more.After? && more.earlier.After? && more.earlier.call.Wait? && more.earlier.call.waited == reply
    ensures w.ticks == old(w.ticks) + 1 && w.attempted == old(w.attempted)
    ensures w.queried == old(w.queried) && w.flushed == old(w.flushed)
    ensures reply == w.Waits(old(w.waited))
    ensures
      var t := CountedWait(old(o.Values()), reply);
      o.Values() == t.(elapsed := Saturated(t.elapsed, Since(w.Reading(old(w.ticks)), waitingAt)))
  {
    o.waits := o.waits + 1;
    var slice := Min(Since(deadline, waitingAt), WAIT_SLICE);
    reply := w.WaitForClear(slice);
    var now := w.Now();
    o.elapsed := Saturated(o.elapsed, Since(now, waitingAt));
    match reply {
      case Cleared =>
      case TimedOut => o.timeouts := o.timeouts + 1;
      case WaitStalled(detail) =>
        o.waitStalls := o.waitStalls + 1;
        o.lastStall := StalledBy(detail);
      case WaitFailed(_) =>
    }
    more := After(After(calls, Wait(slice, reply)), Read(now));
  }

  /** After `stalls` is settled: what waiting may have changed. */
  predicate Waiting(before: Tally, after: Tally) {
    && after.attempts == before.attempts && after.committed == before.committed && after.stalls == before.stalls
    && before.timeouts <= after.timeouts && before.waitStalls <= after.waitStalls && before.elapsed <= after.elapsed
    && (after.lastStall == before.lastStall || (after.lastStall.StalledBy? && after.lastStall.detail != ""))
  }

  /** Every wait but the clearing ones timed out or met another stall. */
  predicate Accounted(before: Tally, after: Tally, cleared: nat) {
    && Waiting(before, after)
    && after.waits - before.waits ==
       cleared + (after.timeouts - before.timeouts) + (after.waitStalls - before.waitStalls)
  }

  method AwaitClear(deadline: nat, o: Observations, w: Environment,
                    ghost horizon: nat, ghost base: History, ghost start: Tally, ghost prior: History)
    returns (r: Result<(), CommitError>, ghost calls: History)
    requires w.Monotone() && w.Reaches(deadline, horizon) && w.StallsExplained()
    requires InStep(o, w, base, start, prior, deadline)
    requires Rested(prior)
    modifies o, w
    ensures InStep(o, w, base, start, calls, deadline)
    ensures Waiting(old(o.Values()), o.Values())
    ensures r.Ok? ==> Accounted(old(o.Values()), o.Values(), 1) && Rested(calls)
    ensures WithinClock(o, w, old(o.elapsed), old(w.ticks))
    ensures w.queried == old(w.queried) && w.flushed == old(w.flushed)
    ensures r.Err? ==> Stopped(r.error, o, w, calls, deadline)
  {
    calls := prior;
    while true
      invariant w.ticks >= old(w.ticks) && Rested(calls)
      invariant w.queried == old(w.queried) && w.flushed == old(w.flushed)
      invariant InStep(o, w, base, start, calls, deadline)
      invariant Accounted(old(o.Values()), o.Values(), 0)
      invariant if w.ticks == old(w.ticks) then o.elapsed == old(o.elapsed)
                else o.elapsed - old(o.elapsed) <= w.Reading(w.ticks - 1) - w.Reading(old(w.ticks))
      decreases horizon - w.ticks
    {
      var waitingAt;
      waitingAt, calls := ReadClock(deadline, o, w, base, start, calls);
      var remaining := Since(deadline, waitingAt);
      if remaining == 0 { return Err(Exhausted(o.lastStall)), calls; }
      var reply;
      reply, calls := WaitOnce(deadline, waitingAt, o, w, base, start, calls);
      match reply {
        case Cleared => return Ok(()), calls;
        case WaitFailed(error) => return Err(Original(error)), calls;
        case _ =>
      }
    }
  }

  method CommitOnce(deadline: nat, at: nat, o: Observations, w: Environment, ghost base: History, ghost start: Tally,
                    ghost calls: History)
    returns (reply: CommitReply, ghost more: History)
    requires InStep(o, w, base, start, calls, deadline) && AfterRead(calls, at) && at < deadline
    modifies o, w
    ensures InStep(o, w, base, start, more, deadline) && more == After(calls, Commit(reply))
    ensures w.ticks == old(w.ticks) && reply == w.Commits(old(w.attempted))
    ensures w.attempted == old(w.attempted) + 1 && w.queried == old(w.queried) && w.flushed == old(w.flushed)
    ensures o.Values() == CountedCommit(old(o.Values()), reply)
  {
    o.attempts := o.attempts + 1;
    reply := w.TryCommit();
    match reply {
      case Committed => o.committed := o.committed + 1;
      case CommitStalled(detail) => o.RecordStall(detail);
      case CommitFailed(_) =>
    }
    more := After(calls, Commit(reply));
  }

  lemma StallThenClear(start: Tally, a: Tally, c: Tally, detail: string)
    requires Finished(start, a, 0) && detail != ""
    requires Accounted(CountedCommit(a, CommitStalled(detail)), c, 1)
    ensures Finished(start, c, 0)
  {
  }

  /** The conversation ended in this failure. */
  predicate FailedWith(calls: History, error: string) {
    && calls.After?
    && (|| calls.call == Commit(CommitFailed(error))
        || (calls.earlier.After? && calls.earlier.call.Wait? && calls.earlier.call.waited == WaitFailed(error)))
  }

  lemma CommitFinishes(start: Tally, a: Tally)
    requires Finished(start, a, 0)
    ensures Finished(start, CountedCommit(a, Committed), 1)
  {
  }

  /** Time spent waiting lies within the readings taken from `tick` on. */
  ghost predicate WithinClock(o: Observations, w: Environment, elapsed: nat, tick: nat)
    reads o, w
  {
    w.ticks > tick && o.elapsed - elapsed <= w.Reading(w.ticks - 1) - w.Reading(tick)
  }

  /** One attempt and, if it was rejected, the wait for clearance; `None` when cleared. */
  method Attempt(deadline: nat, o: Observations, w: Environment,
                 ghost horizon: nat, ghost base: History, ghost start: Tally, ghost prior: History)
    returns (r: Option<Result<(), CommitError>>, ghost calls: History)
    requires w.Monotone() && w.Reaches(deadline, horizon) && w.StallsExplained()
    requires InStep(o, w, base, start, prior, deadline) && Finished(start, o.Values(), 0) && Rested(prior)
    modifies o, w
    ensures InStep(o, w, base, start, calls, deadline) && WithinClock(o, w, old(o.elapsed), old(w.ticks))
    ensures r.None? ==> Finished(start, o.Values(), 0) && Rested(calls) && w.Reading(old(w.ticks)) < deadline
    ensures r.Some? && r.value.Ok? ==> Finished(start, o.Values(), 1) && calls.After? && calls.call == Commit(Committed)
    ensures r.Some? && r.value.Err? ==> Stopped(r.value.error, o, w, calls, deadline)
    ensures w.Commits(old(w.attempted)).Committed? && w.Reading(old(w.ticks)) < deadline ==>
              r.Some? && r.value.Ok? && w.ticks == old(w.ticks) + 1 && w.attempted == old(w.attempted) + 1
    ensures w.queried == old(w.queried) && w.flushed == old(w.flushed)
  {
    var now;
    now, calls := ReadClock(deadline, o, w, base, start, prior);
    if now >= deadline { return Some(Err(Exhausted(o.lastStall))), calls; }
    ghost var before := o.Values();
    var reply;
    reply, calls := CommitOnce(deadline, now, o, w, base, start, calls);
    match reply {
      case Committed =>
        CommitFinishes(start, before);
        return Some(Ok(())), calls;
      case CommitFailed(error) => return Some(Err(Original(error))), calls;
      case CommitStalled(detail) =>
        var cleared;
        cleared, calls := AwaitClear(deadline, o, w, horizon, base, start, calls);
        if cleared.Err? { return Some(cleared), calls; }
        StallThenClear(start, before, o.Values(), detail);
        return None, calls;
    }
  }

  /** Why a call gave up: the original failure, or the clock at the deadline. */
  ghost predicate Stopped(error: CommitError, o: Observations, w: Environment, calls: History, deadline: nat)
    reads o, w
  {
    match error
    case Original(e) => FailedWith(calls, e)
    case Exhausted(last) => last == o.lastStall && w.ticks > 0 && w.Reading(w.ticks - 1) >= deadline
  }

  /** The first attempt is made in time and accepted. */
  ghost predicate AtOnce(w: Environment, attempted: nat, tick: nat, budget: nat, cellDeadline: nat) {
    w.Commits(attempted).Committed? && w.Reading(tick + 1) < Deadline(w.Reading(tick), budget, cellDeadline)
  }

  /** A conversation keeps its ending when it is put after earlier ones. */
  lemma FailureShows(base: History, calls: History, error: string)
    requires FailedWith(calls, error)
    ensures FailedWith(Append(base, calls), error)
  {
  }

  /**
    One strict commit. Success is exactly one accepted commit, at the end; the
    counters are what the calls amount to, and no call is admitted at or past
    the deadline captured at the start.
   */
  method CommitWithBackpressure(cellDeadline: nat, budget: nat, o: Observations, w: Environment, ghost horizon: nat)
    returns (r: Result<(), CommitError>, ghost calls: History)
    requires w.Streams() && w.Monotone() && w.Reaches(cellDeadline, horizon) && w.StallsExplained()
    modifies o, w
    ensures InStep(o, w, old(w.log), old(o.Values()), calls, Deadline(w.Reading(old(w.ticks)), budget, cellDeadline))
    ensures r.Ok? ==> Finished(old(o.Values()), o.Values(), 1) && calls.After? && calls.call == Commit(Committed)
    ensures WithinClock(o, w, old(o.elapsed), old(w.ticks))
    ensures r.Err? ==> Stopped(r.error, o, w, calls, Deadline(w.Reading(old(w.ticks)), budget, cellDeadline))
    ensures AtOnce(w, old(w.attempted), old(w.ticks), budget, cellDeadline) ==>
              r.Ok? && w.ticks == old(w.ticks) + 2 && w.attempted == old(w.attempted) + 1
    ensures w.queried == old(w.queried) && w.flushed == old(w.flushed)
  {
    ghost var base, start := w.log, o.Values();
    var started := w.Now();
    var deadline := Deadline(started, budget, cellDeadline);
    calls := After(Start, Read(started));
    while true
      invariant InStep(o, w, base, start, calls, deadline) && Rested(calls)
      invariant WithinClock(o, w, old(o.elapsed), old(w.ticks))
      invariant Finished(start, o.Values(), 0)
      invariant AtOnce(w, old(w.attempted), old(w.ticks), budget, cellDeadline) ==>
                  w.attempted == old(w.attempted) && w.ticks == old(w.ticks) + 1
      invariant w.queried == old(w.queried) && w.flushed == old(w.flushed)
      decreases horizon - w.ticks
    {
      var outcome;
      outcome, calls := Attempt(deadline, o, w, horizon, base, start, calls);
      if outcome.Some? { return outcome.value, calls; }
    }
  }

  // ---------------------------------------------------------------- the independent checks

  function CheckedAdd(a: nat, b: nat): Option<nat> {
    if a + b <= MAX_U64 then Some(a + b) else None
  }

  /** What the reader demands of a tally recorded after `successes` strict commits. */
  predicate CompletedBoundary(t: Tally, successes: nat) {
    var errors := CheckedAdd(t.timeouts, t.waitStalls);
    && t.committed == successes && CheckedAdd(t.committed, t.stalls) == Some(t.attempts)
    && errors.Some? && CheckedAdd(t.stalls, errors.value) == Some(t.waits)
    && (t.stalls > 0 || (t.waits == 0 && t.elapsed == 0))
    && if t.stalls == 0 then t.lastStall.NoStall? else t.lastStall.StalledBy? && t.lastStall.detail != ""
  }

  function TallyDelta(after: Tally, before: Tally): Option<Tally> {
    if before.attempts <= after.attempts && before.committed <= after.committed && before.stalls <= after.stalls
       && before.waits <= after.waits && before.timeouts <= after.timeouts && before.waitStalls <= after.waitStalls
       && before.elapsed <= after.elapsed
    then Some(Tally(after.attempts - before.attempts, after.committed - before.committed, after.stalls - before.stalls,
                    after.waits - before.waits, after.timeouts - before.timeouts, after.waitStalls - before.waitStalls,
                    after.elapsed - before.elapsed, NoStall))
    else None
  }

  const CELL_BUDGET := 900 * SECOND

  datatype Cell = Cell(cycles: nat) {
    function Warmup(): nat {
      (cycles + 9) / 10
    }
    function Measured(): nat {
      cycles - Warmup()
    }
  }

  /** The warmup is a tenth of the cycles, rounded up. */
  lemma WarmupIsATenth(cell: Cell)
    ensures 10 * cell.Warmup() >= cell.cycles && (cell.Warmup() > 0 ==> 10 * (cell.Warmup() - 1) < cell.cycles)
    ensures cell.Warmup() + cell.Measured() == cell.cycles
  {
  }

  /**
    The reader's verdict on two tallies recorded after `warmup` and `cycles`
    strict commits, and the measured clock.
   */
  predicate SplitQualifies(before: Tally, after: Tally, warmup: nat, cycles: nat, measuredElapsed: nat) {
    && CompletedBoundary(before, warmup) && CompletedBoundary(after, cycles)
    && var measured := TallyDelta(after, before);
    && measured.Some?
    && (measured.value.stalls > 0 || (measured.value.waits == 0 && measured.value.elapsed == 0))
    && measured.value.committed == cycles - warmup
    && 0 < measuredElapsed <= CELL_BUDGET && measured.value.elapsed <= measuredElapsed
  }

  predicate Qualifies(before: Tally, after: Tally, cell: Cell, measuredElapsed: nat) {
    SplitQualifies(before, after, cell.Warmup(), cell.cycles, measuredElapsed)
  }

  /** The attempt and wait counters fit the recorded width. */
  predicate Fits(t: Tally) {
    t.attempts <= MAX_U64 && t.waits <= MAX_U64
  }

  /** The reader accepts a tally exactly when that many strict commits leave it in an unused one, and it fits. */
  lemma CompletedBoundaryExactly(t: Tally, n: nat)
    ensures CompletedBoundary(t, n) <==> Completed(t, n) && Fits(t)
  {
  }

  lemma FinishedCompletes(start: Tally, t: Tally, n: nat)
    requires Unused(start) && Finished(start, t, n) && Fits(t)
    ensures CompletedBoundary(t, n)
  {
    CompletedExactly(start, t, n);
    CompletedBoundaryExactly(t, n);
  }

  /** The later tally with the earlier one's last stall, which the reader does not compare, when none was added. */
  function WithoutNews(after: Tally, before: Tally): Tally {
    if after.stalls == before.stalls then after.(lastStall := before.lastStall) else after
  }

  /**
    Two recorded tallies qualify exactly when the earlier is that of the warmup
    commits, the later that of all of them, and, up to the text of a stall the
    measured commits did not add, the measured commits lead from one to the
    other, within a positive clock of at most the budget that covers the waits.
   */
  lemma SplitQualifiesExactly(before: Tally, after: Tally, warmup: nat, cycles: nat, measuredElapsed: nat)
    ensures SplitQualifies(before, after, warmup, cycles, measuredElapsed) <==>
            && warmup <= cycles && Completed(before, warmup) && Completed(after, cycles) && Fits(before) && Fits(after)
            && Finished(before, WithoutNews(after, before), cycles - warmup)
            && 0 < measuredElapsed <= 900 * SECOND && after.elapsed - before.elapsed <= measuredElapsed
  {
    CompletedBoundaryExactly(before, warmup);
    CompletedBoundaryExactly(after, cycles);
  }

  /**
    The loop satisfies its checker: after any number of warmup commits and then
    any number of measured ones, whatever stalled in between, the recorded
    tallies qualify exactly when the measured clock is positive, within the
    cell's budget, and covers the waits.
   */
  lemma FinishedQualifies(before: Tally, after: Tally, warmup: nat, measured: nat, measuredElapsed: nat)
    requires Completed(before, warmup) && Finished(before, after, measured) && Fits(after)
    ensures SplitQualifies(before, after, warmup, warmup + measured, measuredElapsed) <==>
            0 < measuredElapsed <= CELL_BUDGET && after.elapsed - before.elapsed <= measuredElapsed
  {
    CompletedChains(before, after, warmup, measured);
    SplitQualifiesExactly(before, after, warmup, warmup + measured, measuredElapsed);
  }
}
