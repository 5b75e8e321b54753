/** One measured cell: warmup commits, a boundary, measured commits, a closing boundary. */
module Ingestion {
  import opened Basics
  import opened CounterTree
  import opened Accounting
  import opened AccountingJson
  import opened World
  import CheckpointGate
  import GateAgreement
  import C = CommitBackpressure
  import B = MetadataBoundary

  datatype Failure =
    | BudgetExpired
    | CommitStopped(commit: C.CommitError)
    | FlushStopped(flush: string)
    | BoundaryFailed(boundary: B.BoundaryError)
    | NoWarmupBoundary
    | CompactionsDecreased
    | NoWindow

  /** What is kept of the opening boundary. */
  datatype Opening = Opening(boundary: B.Boundary, record: B.Record, tally: C.Tally)

  datatype Report = Report(
    opening: Opening,
    tally: C.Tally,
    boundary: B.Boundary,
    record: B.Record,
    delta: Snapshot,
    compactions: nat,
    measuredElapsed: nat)

  // ---------------------------------------------------------------- the reader's checks

  /** The reader's check of both captures: the owner, the records and the measured clock. */
  predicate BoundariesQualify(before: Value, after: Value, opening: B.Record, closing: B.Record, measuredElapsed: nat) {
    && Number(before, OwnerId).Some? && Number(before, OwnerId).value > 0
    && Index(before, OwnerId) == Index(after, OwnerId)
    && B.RecordAccepted(opening, before, MAX_BUDGET, PAUSE_SLICE)
    && B.RecordAccepted(closing, after, MAX_BUDGET, PAUSE_SLICE)
    && closing.elapsed <= measuredElapsed
  }

  /** One capture made with an unused record. */
  predicate SoundCapture(b: B.Boundary, r: B.Record) {
    && Canonical(b.snapshot) && PersistentIdle(b.snapshot)
    && B.OneCapture(r.counts) && r.complete && r.counts.finalActive == 0
    && r.counts.paused <= r.elapsed < MAX_BUDGET
  }

  lemma SoundCaptureIsAccepted(b: B.Boundary, r: B.Record)
    requires Canonical(b.snapshot)
    ensures B.RecordAccepted(r, SnapshotJson(b.snapshot), MAX_BUDGET, PAUSE_SLICE) <==>
            SoundCapture(b, r) && r.counts.samples <= MAX_U64
  {
    SnapshotIsDocumented(b.snapshot);
    B.RecordAcceptedExactly(r, SnapshotJson(b.snapshot), b.snapshot);
  }

  /**
    The reader accepts two recorded boundaries exactly when both are sound
    captures of one real owner, their counts fit, and the closing one lies in
    the measured clock.
   */
  lemma BoundariesQualifyExactly(opening: B.Boundary, closing: B.Boundary, before: B.Record, after: B.Record,
                                 measuredElapsed: nat)
    requires Canonical(opening.snapshot) && Canonical(closing.snapshot)
    ensures BoundariesQualify(SnapshotJson(opening.snapshot), SnapshotJson(closing.snapshot), before, after,
                              measuredElapsed) <==>
            && SoundCapture(opening, before) && before.counts.samples <= MAX_U64
            && SoundCapture(closing, after) && after.counts.samples <= MAX_U64
            && opening.snapshot.owner == closing.snapshot.owner > 0 && after.elapsed <= measuredElapsed
  {
    SoundCaptureIsAccepted(opening, before);
    SoundCaptureIsAccepted(closing, after);
    OwnerReads(opening.snapshot);
    OwnerReads(closing.snapshot);
  }

  /** Everything a completed run promises about what it recorded. */
  predicate SoundReport(r: Report, cell: C.Cell) {
    && SoundCapture(r.opening.boundary, r.opening.record) && SoundCapture(r.boundary, r.record)
    && C.Completed(r.opening.tally, cell.Warmup()) && C.Finished(r.opening.tally, r.tally, cell.Measured())
    && r.tally.elapsed - r.opening.tally.elapsed <= r.measuredElapsed
    && r.record.elapsed <= r.measuredElapsed
    && Delta(r.boundary.snapshot, r.opening.boundary.snapshot) == Some(r.delta)
    && r.boundary.compactions == r.opening.boundary.compactions + r.compactions
  }

  predicate CountsFit(r: Report) {
    C.Fits(r.tally) && r.opening.record.counts.samples <= MAX_U64 && r.record.counts.samples <= MAX_U64
  }

  /**
    A completed run satisfies both checkers: its commit counters qualify exactly
    when the measured clock is positive and within the cell's budget, and its
    boundaries qualify exactly when the owner is real.
   */
  lemma SoundReportQualifies(r: Report, cell: C.Cell)
    requires SoundReport(r, cell) && CountsFit(r)
    ensures C.Qualifies(r.opening.tally, r.tally, cell, r.measuredElapsed) <==> 0 < r.measuredElapsed <= C.CELL_BUDGET
    ensures BoundariesQualify(SnapshotJson(r.opening.boundary.snapshot), SnapshotJson(r.boundary.snapshot),
                              r.opening.record, r.record, r.measuredElapsed)
            <==> r.opening.boundary.snapshot.owner > 0
  {
    C.FinishedQualifies(r.opening.tally, r.tally, cell.Warmup(), cell.Measured(), r.measuredElapsed);
    BoundariesQualifyExactly(r.opening.boundary, r.boundary, r.opening.record, r.record, r.measuredElapsed);
  }

  lemma OwnerReads(s: Snapshot)
    ensures Index(SnapshotJson(s), OwnerId) == Num(s.owner)
  {
  }

  /**
    The whole pipeline: the gate the reader recomputes from a completed run's
    two raw snapshots is the run's own verdict on its window.
   */
  lemma ReportReadsBack(r: Report, cell: C.Cell)
    requires SoundReport(r, cell) && Untainted(r.opening.boundary.snapshot)
    ensures Canonical(r.delta)
    ensures GateAgreement.ReadBack(SnapshotJson(r.boundary.snapshot), SnapshotJson(r.opening.boundary.snapshot),
                                   cell.Measured(), r.compactions)
            == if CheckpointGate.EvaluationReasons(r.delta, cell.Measured(), r.compactions) == []
               then Some(CheckpointGate.Misses(r.delta)) else None
  {
    GateAgreement.ReadBackAgrees(r.boundary.snapshot, r.opening.boundary.snapshot, cell.Measured(), r.compactions);
  }

  // ---------------------------------------------------------------- the run

  ghost predicate Orderly(w: Environment) {
    w.Streams() && w.Monotone() && w.StallsExplained() && w.SnapshotsFormed()
  }

  /** Why a commit, a flush or a capture failed: the environment's own failure, or an allowance that ran out. */
  ghost predicate Stopped(failure: Failure, w: Environment, started: nat)
    reads w
  {
    w.ticks > 0 &&
    match failure
    case BudgetExpired => w.Reading(w.ticks - 1) >= started + 900 * SECOND
    case CommitStopped(Exhausted(_)) => w.Reading(w.ticks - 1) >= started + 30 * SECOND
    case CommitStopped(Original(error)) => C.FailedWith(w.log, error)
    case FlushStopped(error) => w.log.After? && w.log.call == Flush(FlushFailed(error))
    case BoundaryFailed(Expired) => w.Reading(w.ticks - 1) >= started + 30 * SECOND
    case BoundaryFailed(QueryError(error)) => B.QueryFailedWith(w.log, error)
    case _ => false
  }

  /** Why a run failed; the last two are read off its opening sample and the latest, closing one. */
  ghost predicate Explained(failure: Failure, cell: C.Cell, opening: Option<Opening>, w: Environment, started: nat)
    reads w
  {
    match failure
    case NoWarmupBoundary => opening.None? && cell.cycles <= 1
    case CompactionsDecreased =>
      opening.Some? && Asked(w).Some? && Asked(w).value.Sampled?
      && Asked(w).value.compactions < opening.value.boundary.compactions
    case NoWindow =>
      opening.Some? && Asked(w).Some? && Asked(w).value.Sampled?
      && Unclosable(opening.value, Asked(w).value.compactions, Asked(w).value.snapshot)
    case _ => Stopped(failure, w, started)
  }

  /** There is no window between the opening sample and this one. */
  predicate Unclosable(opening: Opening, compactions: nat, closing: Snapshot) {
    compactions < opening.boundary.compactions || NoDelta(closing, opening.boundary.snapshot)
  }

  predicate NoDelta(after: Snapshot, before: Snapshot) {
    Canonical(after) && Canonical(before) && Delta(after, before).None?
  }

  /** The latest sample asked for. */
  ghost function Asked(w: Environment): Option<QueryReply>
    reads w
  {
    if w.queried > 0 then Some(w.Queries(w.queried - 1)) else None
  }

  method Capture(started: nat, w: Environment, ghost horizon: nat) returns (r: Result<(B.Boundary, B.Record), Failure>)
    requires Orderly(w) && w.Reaches(started + C.CELL_BUDGET, horizon) && started <= w.Reading(w.ticks)
    modifies w
    ensures w.ticks > old(w.ticks) && w.attempted == old(w.attempted) && w.flushed == old(w.flushed)
    ensures r.Ok? ==>
              && SoundCapture(r.value.0, r.value.1) && B.Latest(w, r.value.0) && w.ticks >= old(w.ticks) + 3
              && r.value.0.queryStarted == w.Reading(w.ticks - 2)
              && r.value.1.elapsed == w.Reading(w.ticks - 1) - w.Reading(old(w.ticks))
    ensures r.Err? ==> Stopped(r.error, w, started)
    ensures B.AtOnce(w, old(w.queried), old(w.ticks), MAX_BUDGET, started + C.CELL_BUDGET) ==>
              r.Ok? && w.ticks == old(w.ticks) + 3 && w.queried == old(w.queried) + 1
  {
    ghost var base := w.log;
    var o := new B.Observation();
    ghost var start := o.Counts();
    var captured;
    ghost var calls;
    captured, calls := B.CaptureBoundary(started + C.CELL_BUDGET, MAX_BUDGET, o, w, horizon);
    match captured {
      case Err(error) =>
        if error.QueryError? { B.QueryFailureShows(base, calls, error.error); }
        return Err(BoundaryFailed(error));
      case Ok(boundary) =>
        B.CapturedExactly(start, o.Counts());
        assert Canonical(boundary.snapshot);
        return Ok((boundary, B.Record(o.Counts(), o.elapsed, o.complete)));
    }
  }

  method StrictCommit(started: nat, o: C.Observations, w: Environment, ghost horizon: nat)
    returns (r: Result<(), Failure>)
    requires Orderly(w) && w.Reaches(started + C.CELL_BUDGET, horizon) && started <= w.Reading(w.ticks)
    modifies o, w
    ensures w.ticks > old(w.ticks) && w.queried == old(w.queried) && w.flushed == old(w.flushed)
    ensures r.Ok? ==>
              && C.Finished(old(o.Values()), o.Values(), 1) && w.log.After? && w.log.call == Commit(Committed)
              && o.elapsed - old(o.elapsed) <= w.Reading(w.ticks - 1) - w.Reading(old(w.ticks))
    ensures r.Err? ==> Stopped(r.error, w, started)
    ensures C.AtOnce(w, old(w.attempted), old(w.ticks), MAX_BUDGET, started + C.CELL_BUDGET) ==>
              r.Ok? && w.ticks == old(w.ticks) + 2 && w.attempted == old(w.attempted) + 1
  {
    ghost var base := w.log;
    var committed;
    ghost var calls;
    committed, calls := C.CommitWithBackpressure(started + C.CELL_BUDGET, MAX_BUDGET, o, w, horizon);
    if committed.Err? {
      if committed.error.Original? { C.FailureShows(base, calls, committed.error.error); }
      return Err(CommitStopped(committed.error));
    }
    return Ok(());
  }

  /** The window was opened after the warmup's commits, by an idle sample. */
  predicate Begun(start: C.Tally, opening: Opening, warmup: nat) {
    SoundCapture(opening.boundary, opening.record) && C.Finished(start, opening.tally, warmup)
  }

  /** The same for a run whose tally was unused at first. */
  predicate Warm(opening: Opening, warmup: nat) {
    SoundCapture(opening.boundary, opening.record) && C.Completed(opening.tally, warmup)
  }

  /** No sample was taken since the opening, and the waits since lie within its clock, which now shows `now`. */
  predicate Opened(opening: Opening, t: C.Tally, asked: Option<QueryReply>, now: nat, k: nat) {
    && asked == Some(Sampled(opening.boundary.compactions, opening.boundary.snapshot))
    && C.Finished(opening.tally, t, k) && t.elapsed - opening.tally.elapsed <= now - opening.boundary.queryStarted
  }

  /** `cycle` commits were made: those of the warmup, or the warmup's and those since the opening. */
  predicate Standing(start: C.Tally, opening: Option<Opening>, t: C.Tally, asked: Option<QueryReply>, now: nat,
                     warmup: nat, cycle: nat) {
    match opening
    case None => C.Finished(start, t, cycle)
    case Some(window) => cycle >= warmup && Opened(window, t, asked, now, cycle - warmup)
  }

  /** Where a run stands before cycle `cycle`. */
  ghost predicate Progress(start: C.Tally, opening: Option<Opening>, t: C.Tally, w: Environment, warmup: nat,
                           cycle: nat)
    reads w
  {
    && w.ticks > 0 && Standing(start, opening, t, Asked(w), w.Reading(w.ticks - 1), warmup, cycle)
    && (opening.Some? <==> cycle > warmup)
  }

  // ---------------------------------------------------------------- prompt runs

  /** How many readings, attempts, queries and flushes have been made. */
  datatype Calls = Calls(tick: nat, attempted: nat, queried: nat, flushed: nat)

  ghost function Now(w: Environment): Calls
    reads w
  {
    Calls(w.ticks, w.attempted, w.queried, w.flushed)
  }

  /** Capture, commit and flush succeed at their first try. */
  ghost predicate WorksAtOnce(w: Environment, c: Calls, started: nat, due: bool) {
    var cellDeadline := started + C.CELL_BUDGET;
    && (due ==> B.AtOnce(w, c.queried, c.tick, MAX_BUDGET, cellDeadline))
    && C.AtOnce(w, c.attempted, c.tick + (if due then 3 else 0), MAX_BUDGET, cellDeadline)
    && w.Flushes(c.flushed).Flushed?
  }

  /** What that uses up. */
  function CallsAfter(c: Calls, due: bool): Calls {
    Calls(c.tick + (if due then 5 else 2), c.attempted + 1, c.queried + (if due then 1 else 0), c.flushed + 1)
  }

  /** The clock is within the budget, and so do they after its reading. */
  ghost predicate CycleAtOnce(w: Environment, c: Calls, started: nat, due: bool) {
    w.Reading(c.tick) < started + C.CELL_BUDGET && WorksAtOnce(w, c.(tick := c.tick + 1), started, due)
  }

  /** Captures the opening boundary in the first cycle after the warmup, and only there. */
  method BeginIfDue(opening: Option<Opening>, warmup: nat, cycle: nat, started: nat, o: C.Observations, w: Environment,
                    ghost horizon: nat, ghost start: C.Tally)
    returns (r: Result<Option<Opening>, Failure>)
    requires Orderly(w) && w.Reaches(started + C.CELL_BUDGET, horizon) && started <= w.Reading(w.ticks)
    requires Progress(start, opening, o.Values(), w, warmup, cycle)
    modifies w
    ensures w.ticks >= old(w.ticks) && w.attempted == old(w.attempted) && w.flushed == old(w.flushed)
    ensures r.Err? ==> Stopped(r.error, w, started)
    ensures cycle != warmup ==> r == Ok(opening) && w.ticks == old(w.ticks) && w.queried == old(w.queried)
    ensures r.Ok? ==>
              && Standing(start, r.value, o.Values(), Asked(w), w.Reading(w.ticks - 1), warmup, cycle)
              && (r.value.Some? <==> cycle >= warmup)
    ensures r.Ok? && cycle == warmup ==>
              && Begun(start, r.value.value, warmup)
              && w.ticks >= 2 && r.value.value.boundary.queryStarted == w.Reading(w.ticks - 2)
    ensures cycle == warmup && B.AtOnce(w, old(w.queried), old(w.ticks), MAX_BUDGET, started + C.CELL_BUDGET) ==>
              r.Ok? && w.ticks == old(w.ticks) + 3 && w.queried == old(w.queried) + 1
  {
    if cycle != warmup { return Ok(opening); }
    var captured := Capture(started, w, horizon);
    if captured.Err? { return Err(captured.error); }
    r := Ok(Some(Opening(captured.value.0, captured.value.1, o.Values())));
  }

  /** One more strict commit, and the clock's advance with it. */
  lemma Advance(start: C.Tally, opening: Option<Opening>, before: C.Tally, after: C.Tally,
                asked: Option<QueryReply>, now: nat, later: nat, warmup: nat, cycle: nat)
    requires Standing(start, opening, before, asked, now, warmup, cycle)
    requires C.Finished(before, after, 1) && after.elapsed - before.elapsed <= later - now
    ensures Standing(start, opening, after, asked, later, warmup, cycle + 1)
  {
    if opening.Some? {
      C.FinishedChains(opening.value.tally, before, after, cycle - warmup, 1);
    } else {
      C.FinishedChains(start, before, after, cycle, 1);
    }
  }

  /** The last two calls are an accepted commit and the flush after it. */
  predicate EndsFlushed(log: History) {
    && log.After? && log.call == Flush(Flushed)
    && log.earlier.After? && log.earlier.call == Commit(Committed)
  }

  /** One strict commit and the explicit flush after it, in a run that stands before cycle `cycle`. */
  method CommitAndFlush(started: nat, o: C.Observations, w: Environment, ghost horizon: nat,
                        ghost start: C.Tally, ghost opening: Option<Opening>, ghost warmup: nat, ghost cycle: nat)
    returns (r: Result<(), Failure>)
    requires Orderly(w) && w.Reaches(started + C.CELL_BUDGET, horizon) && started <= w.Reading(w.ticks)
    requires w.ticks > 0 && Standing(start, opening, o.Values(), Asked(w), w.Reading(w.ticks - 1), warmup, cycle)
    modifies o, w
    ensures w.ticks > old(w.ticks) && w.queried == old(w.queried)
    ensures r.Ok? ==> Standing(start, opening, o.Values(), Asked(w), w.Reading(w.ticks - 1), warmup, cycle + 1)
    ensures r.Ok? ==> EndsFlushed(w.log) && w.flushed == old(w.flushed) + 1
    ensures r.Err? ==> Stopped(r.error, w, started)
    ensures C.AtOnce(w, old(w.attempted), old(w.ticks), MAX_BUDGET, started + C.CELL_BUDGET)
            && w.Flushes(old(w.flushed)).Flushed? ==>
              && r.Ok? && w.ticks == old(w.ticks) + 2
              && w.attempted == old(w.attempted) + 1 && w.flushed == old(w.flushed) + 1
  {
    ghost var before, asked, tick := o.Values(), Asked(w), w.ticks;
    r := StrictCommit(started, o, w, horizon);
    if r.Err? { return; }
    var flushed := w.FlushFamily();
    if flushed.FlushFailed? { return Err(FlushStopped(flushed.error)); }
    Advance(start, opening, before, o.Values(), asked, w.Reading(tick - 1), w.Reading(w.ticks - 1), warmup, cycle);
  }

  /** A cycle once the budget allows it. */
  method Work(opening: Option<Opening>, warmup: nat, cycle: nat, started: nat, o: C.Observations, w: Environment,
              ghost horizon: nat, ghost start: C.Tally)
    returns (r: Result<Option<Opening>, Failure>)
    requires Orderly(w) && w.Reaches(started + C.CELL_BUDGET, horizon) && started <= w.Reading(w.ticks)
    requires Progress(start, opening, o.Values(), w, warmup, cycle)
    modifies o, w
    ensures w.ticks >= old(w.ticks) && (r.Ok? ==> EndsFlushed(w.log) && w.flushed == old(w.flushed) + 1)
    ensures r.Ok? ==> Progress(start, r.value, o.Values(), w, warmup, cycle + 1)
    ensures r.Ok? ==> if cycle == warmup then Begun(start, r.value.value, warmup) else r.value == opening
    ensures r.Err? ==> Stopped(r.error, w, started)
    ensures WorksAtOnce(w, old(Now(w)), started, cycle == warmup) ==>
              && r.Ok? && Now(w) == CallsAfter(old(Now(w)), cycle == warmup)
              && (cycle == warmup ==> r.value.value.boundary.queryStarted == w.Reading(old(w.ticks) + 1))
  {
    r := BeginIfDue(opening, warmup, cycle, started, o, w, horizon, start);
    if r.Err? { return; }
    var committed := CommitAndFlush(started, o, w, horizon, start, r.value, warmup, cycle);
    if committed.Err? { return Err(committed.error); }
  }

  method Cycle(opening: Option<Opening>, warmup: nat, cycle: nat, started: nat, o: C.Observations, w: Environment,
               ghost horizon: nat, ghost start: C.Tally)
    returns (r: Result<Option<Opening>, Failure>)
    requires Orderly(w) && w.Reaches(started + C.CELL_BUDGET, horizon)
             && Progress(start, opening, o.Values(), w, warmup, cycle)
    requires w.Reading(w.ticks - 1) >= started
    modifies o, w
    ensures w.ticks > old(w.ticks) && w.Reading(w.ticks - 1) >= started
    ensures r.Ok? ==> Progress(start, r.value, o.Values(), w, warmup, cycle + 1)
    ensures r.Ok? ==> EndsFlushed(w.log) && w.flushed == old(w.flushed) + 1
    ensures r.Ok? ==> if cycle == warmup then Begun(start, r.value.value, warmup) else r.value == opening
    ensures r.Err? ==> Stopped(r.error, w, started)
    ensures w.Reading(old(w.ticks)) >= started + 900 * SECOND ==> r == Err(BudgetExpired) && w.ticks == old(w.ticks) + 1
    ensures CycleAtOnce(w, old(Now(w)), started, cycle == warmup) ==>
              && r.Ok? && Now(w) == CallsAfter(old(Now(w)).(tick := old(w.ticks) + 1), cycle == warmup)
              && (cycle == warmup ==> r.value.value.boundary.queryStarted == w.Reading(old(w.ticks) + 2))
  {
    var now := w.Now();
    if Since(now, started) >= C.CELL_BUDGET { return Err(BudgetExpired); }
    assert Progress(start, opening, o.Values(), w, warmup, cycle);
    r := Work(opening, warmup, cycle, started, o, w, horizon, start);
  }

  /** The report on a window whose closing capture began after reading `before` and ended by reading `now`. */
  method Close(opening: Opening, t: C.Tally, boundary: B.Boundary, record: B.Record, now: nat, cell: C.Cell,
               ghost asked: Option<QueryReply>, ghost before: nat)
    returns (r: Result<Report, Failure>)
    requires Warm(opening, cell.Warmup()) && Opened(opening, t, asked, before, cell.Measured())
    requires SoundCapture(boundary, record) && before <= now && record.elapsed <= now - before
    ensures r.Ok? ==>
              && SoundReport(r.value, cell) && r.value.opening == opening && r.value.boundary == boundary
              && r.value.measuredElapsed == now - opening.boundary.queryStarted
    ensures r.Err? <==> Unclosable(opening, boundary.compactions, boundary.snapshot)
    ensures r.Err? ==>
              r.error == if boundary.compactions < opening.boundary.compactions then CompactionsDecreased else NoWindow
  {
    if boundary.compactions < opening.boundary.compactions { return Err(CompactionsDecreased); }
    var delta := Delta(boundary.snapshot, opening.boundary.snapshot);
    if delta.None? { return Err(NoWindow); }
    r := Ok(Report(opening, t, boundary, record, delta.value, boundary.compactions - opening.boundary.compactions,
                   Since(now, opening.boundary.queryStarted)));
  }

  /** The closing sample is the next one, is taken at the first try, and continues the opening. */
  ghost predicate ClosesAtOnce(opening: Opening, w: Environment, c: Calls, started: nat) {
    && B.AtOnce(w, c.queried, c.tick, MAX_BUDGET, started + C.CELL_BUDGET) && w.Queries(c.queried).Sampled?
    && !Unclosable(opening, w.Queries(c.queried).compactions, w.Queries(c.queried).snapshot)
  }

  /** Closes the window: the second capture, the measured clock and the difference of the two snapshots. */
  method Finish(opening: Opening, cell: C.Cell, started: nat, o: C.Observations, w: Environment, ghost horizon: nat)
    returns (r: Result<Report, Failure>)
    requires Orderly(w) && w.Reaches(started + C.CELL_BUDGET, horizon) && started <= w.Reading(w.ticks)
    requires Warm(opening, cell.Warmup()) && w.ticks > 0
    requires Opened(opening, o.Values(), Asked(w), w.Reading(w.ticks - 1), cell.Measured())
    modifies w
    ensures w.ticks > 0 && w.flushed == old(w.flushed)
    ensures r.Ok? ==>
              && SoundReport(r.value, cell) && r.value.opening == opening && B.Latest(w, r.value.boundary)
              && r.value.measuredElapsed == w.Reading(w.ticks - 1) - opening.boundary.queryStarted
    ensures r.Err? ==> Explained(r.error, cell, Some(opening), w, started)
    ensures ClosesAtOnce(opening, w, old(Now(w)), started) ==> r.Ok? && w.ticks == old(w.ticks) + 4
  {
    ghost var asked, before := Asked(w), w.Reading(w.ticks - 1);
    var closing := Capture(started, w, horizon);
    if closing.Err? { return Err(closing.error); }
    var (boundary, record) := closing.value;
    var now := w.Now();
    r := Close(opening, o.Values(), boundary, record, now, cell, asked, before);
  }

  /** Two steps of the clock stay within one allowance and within the cell's. */
  ghost predicate Brisk(w: Environment, tick: nat, cellDeadline: nat) {
    w.Reading(tick + 2) < Deadline(w.Reading(tick), MAX_BUDGET, cellDeadline)
  }

  ghost predicate BriskFrom(w: Environment, from: nat, to: nat, cellDeadline: nat) {
    forall k: nat :: from <= k < to ==> Brisk(w, k, cellDeadline)
  }

  /** The next `cycles` commits and flushes are accepted. */
  ghost predicate Smooth(w: Environment, c: Calls, cycles: nat) {
    && (forall k: nat :: c.attempted <= k < c.attempted + cycles ==> w.Commits(k).Committed?)
    && (forall k: nat :: c.flushed <= k < c.flushed + cycles ==> w.Flushes(k).Flushed?)
  }

  /** The next two samples are idle, and the second continues the first. */
  ghost predicate Continues(w: Environment, queried: nat) {
    && B.IdleAnswer(w, queried) && B.IdleAnswer(w, queried + 1)
    && w.Queries(queried).compactions <= w.Queries(queried + 1).compactions
    && !NoDelta(w.Queries(queried + 1).snapshot, w.Queries(queried).snapshot)
  }

  /** A run from `c` on in which nothing has to be tried twice. */
  ghost predicate PromptRun(w: Environment, warmup: nat, cycles: nat, c: Calls) {
    && warmup < cycles && Smooth(w, c, cycles) && Continues(w, c.queried)
    && BriskFrom(w, c.tick, c.tick + 3 * cycles + 5, w.Reading(c.tick) + C.CELL_BUDGET)
  }

  /** The calls such a run has made before cycle `cycle`. */
  function CallsBefore(c: Calls, warmup: nat, cycle: nat): Calls {
    var windows := if cycle > warmup then 1 else 0;
    Calls(c.tick + 1 + 3 * cycle + 3 * windows, c.attempted + cycle, c.queried + windows, c.flushed + cycle)
  }

  lemma BriskIsInTime(w: Environment, tick: nat, cellDeadline: nat)
    requires w.Monotone() && Brisk(w, tick, cellDeadline)
    ensures w.Reading(tick) < cellDeadline
    ensures w.Reading(tick + 1) < Deadline(w.Reading(tick), MAX_BUDGET, cellDeadline)
  {
    assert w.Reading(tick) <= w.Reading(tick + 1) <= w.Reading(tick + 2);
  }

  lemma BriskCycle(w: Environment, c: Calls, started: nat, due: bool)
    requires w.Monotone() && w.Commits(c.attempted).Committed? && w.Flushes(c.flushed).Flushed?
    requires due ==> B.IdleAnswer(w, c.queried)
    requires BriskFrom(w, c.tick, c.tick + (if due then 5 else 2), started + C.CELL_BUDGET)
    ensures CycleAtOnce(w, c, started, due)
  {
    var cellDeadline := started + C.CELL_BUDGET;
    assert Brisk(w, c.tick, cellDeadline) && Brisk(w, c.tick + 1, cellDeadline);
    BriskIsInTime(w, c.tick, cellDeadline);
    BriskIsInTime(w, c.tick + 1, cellDeadline);
    if due {
      assert Brisk(w, c.tick + 4, cellDeadline);
      BriskIsInTime(w, c.tick + 4, cellDeadline);
    }
  }

  /** The calls before this cycle are as few as can be, and it succeeds at once. */
  ghost predicate PromptAt(w: Environment, warmup: nat, c: Calls, cycle: nat) {
    CycleAtOnce(w, CallsBefore(c, warmup, cycle), w.Reading(c.tick), cycle == warmup)
  }

  ghost predicate PromptCycles(w: Environment, warmup: nat, cycles: nat, c: Calls) {
    forall cycle: nat :: cycle < cycles ==> PromptAt(w, warmup, c, cycle)
  }

  lemma PromptCycle(w: Environment, warmup: nat, cycles: nat, c: Calls, cycle: nat)
    requires w.Monotone() && PromptRun(w, warmup, cycles, c) && cycle < cycles
    ensures PromptAt(w, warmup, c, cycle)
  {
    var now, limit := CallsBefore(c, warmup, cycle), w.Reading(c.tick) + C.CELL_BUDGET;
    assert BriskFrom(w, now.tick, now.tick + (if cycle == warmup then 5 else 2), limit);
    BriskCycle(w, now, w.Reading(c.tick), cycle == warmup);
  }

  lemma PromptFromStart(w: Environment, warmup: nat, cycles: nat, c: Calls)
    requires w.Monotone() && PromptRun(w, warmup, cycles, c)
    ensures PromptCycles(w, warmup, cycles, c)
  {
    forall cycle: nat | cycle < cycles ensures PromptAt(w, warmup, c, cycle) {
      PromptCycle(w, warmup, cycles, c, cycle);
    }
  }

  lemma PromptClose(w: Environment, warmup: nat, cycles: nat, c: Calls, opening: Opening)
    requires w.Monotone() && PromptRun(w, warmup, cycles, c)
    requires w.Queries(c.queried) == Sampled(opening.boundary.compactions, opening.boundary.snapshot)
    ensures ClosesAtOnce(opening, w, CallsBefore(c, warmup, cycles), w.Reading(c.tick))
  {
    var now, cellDeadline := CallsBefore(c, warmup, cycles), w.Reading(c.tick) + C.CELL_BUDGET;
    assert Brisk(w, now.tick, cellDeadline);
    BriskIsInTime(w, now.tick, cellDeadline);
  }

  lemma CallsAdvance(c: Calls, warmup: nat, cycle: nat)
    ensures
      var now := CallsBefore(c, warmup, cycle);
      CallsAfter(now.(tick := now.tick + 1), cycle == warmup) == CallsBefore(c, warmup, cycle + 1)
  {
  }

  /** A run from `c` on has made no call twice before cycle `cycle`. */
  ghost predicate OnTrack(opening: Option<Opening>, w: Environment, c: Calls, warmup: nat, cycle: nat)
    reads w
  {
    && Now(w) == CallsBefore(c, warmup, cycle)
    && (opening.Some? ==> opening.value.boundary.queryStarted == w.Reading(c.tick + 3 * warmup + 3))
  }

  /** One more cycle, which keeps a prompt run on its track. */
  method NextCycle(opening: Option<Opening>, warmup: nat, cycle: nat, started: nat, o: C.Observations, w: Environment,
                   ghost horizon: nat, ghost start: C.Tally, ghost c: Calls)
    returns (r: Result<Option<Opening>, Failure>)
    requires Orderly(w) && w.Reaches(started + C.CELL_BUDGET, horizon)
             && Progress(start, opening, o.Values(), w, warmup, cycle)
    requires w.Reading(w.ticks - 1) >= started == w.Reading(c.tick)
    modifies o, w
    ensures w.ticks > old(w.ticks) && w.Reading(w.ticks - 1) >= started
    ensures r.Ok? ==> Progress(start, r.value, o.Values(), w, warmup, cycle + 1) && w.flushed == old(w.flushed) + 1
    ensures r.Ok? ==> if cycle == warmup then Begun(start, r.value.value, warmup) else r.value == opening
    ensures r.Err? ==> Stopped(r.error, w, started)
    ensures PromptAt(w, warmup, c, cycle) && old(OnTrack(opening, w, c, warmup, cycle)) ==>
              r.Ok? && OnTrack(r.value, w, c, warmup, cycle + 1)
  {
    CallsAdvance(c, warmup, cycle);
    r := Cycle(opening, warmup, cycle, started, o, w, horizon, start);
  }

  /** All cycles, from the first reading on. */
  method RunCycles(warmup: nat, cycles: nat, started: nat, o: C.Observations, w: Environment, ghost horizon: nat,
                   ghost c: Calls, ghost start: C.Tally)
    returns (r: Result<Option<Opening>, Failure>, ghost window: Option<Opening>)
    requires Orderly(w) && w.Reaches(started + C.CELL_BUDGET, horizon) && o.Values() == start
    requires started == w.Reading(c.tick) && Now(w) == c.(tick := c.tick + 1)
    modifies o, w
    ensures w.ticks > c.tick && w.Reading(w.ticks - 1) >= started
    ensures window.Some? ==> Begun(start, window.value, warmup)
    ensures r.Ok? ==> r.value == window && Progress(start, window, o.Values(), w, warmup, cycles)
    ensures r.Ok? ==> w.flushed == c.flushed + cycles
    ensures r.Err? ==> Stopped(r.error, w, started)
    ensures PromptCycles(w, warmup, cycles, c) ==> r.Ok? && OnTrack(window, w, c, warmup, cycles)
  {
    var opening: Option<Opening> := None;
    ghost var prompt := PromptCycles(w, warmup, cycles, c);
    for cycle := 0 to cycles
      invariant w.ticks > c.tick && w.Reading(w.ticks - 1) >= started && w.flushed == c.flushed + cycle
      invariant Progress(start, opening, o.Values(), w, warmup, cycle)
      invariant opening.Some? ==> Begun(start, opening.value, warmup)
      invariant prompt ==> OnTrack(opening, w, c, warmup, cycle)
    {
      assert prompt ==> PromptAt(w, warmup, c, cycle);
      var next := NextCycle(opening, warmup, cycle, started, o, w, horizon, start, c);
      if next.Err? { return Err(next.error), opening; }
      opening := next.value;
    }
    return Ok(opening), opening;
  }

  /** All cycles with a tally that is unused at first. */
  method RunFresh(warmup: nat, cycles: nat, started: nat, w: Environment, ghost horizon: nat, ghost c: Calls)
    returns (r: Result<Option<Opening>, Failure>, o: C.Observations, ghost window: Option<Opening>,
             ghost start: C.Tally)
    requires Orderly(w) && w.Reaches(started + C.CELL_BUDGET, horizon)
    requires started == w.Reading(c.tick) && Now(w) == c.(tick := c.tick + 1)
    modifies w
    ensures fresh(o) && w.ticks > c.tick && w.Reading(w.ticks - 1) >= started
    ensures window.Some? ==> Warm(window.value, warmup)
    ensures r.Ok? ==> r.value == window && Progress(start, window, o.Values(), w, warmup, cycles)
    ensures r.Ok? ==> w.flushed == c.flushed + cycles
    ensures r.Err? ==> Stopped(r.error, w, started)
    ensures PromptCycles(w, warmup, cycles, c) ==> r.Ok? && OnTrack(window, w, c, warmup, cycles)
  {
    o := new C.Observations();
    start := o.Values();
    r, window := RunCycles(warmup, cycles, started, o, w, horizon, c, start);
    if window.Some? { C.CompletedExactly(start, window.value.tally, warmup); }
  }

  /**
    Runs a cell. Every run that completes has recorded what both checkers
    demand, with a measured clock that runs from the opening query to the last
    reading and one flush after each commit; every failure has its cause; and a run in which nothing has to be
    tried twice completes.
   */
  method Ingest(cell: C.Cell, w: Environment, ghost horizon: nat)
    returns (r: Result<Report, Failure>, ghost opening: Option<Opening>)
    requires Orderly(w) && w.Reaches(w.Reading(w.ticks) + C.CELL_BUDGET, horizon)
    modifies w
    ensures w.ticks > 0 && (opening.Some? ==> Warm(opening.value, cell.Warmup()))
    ensures r.Ok? ==>
              && SoundReport(r.value, cell) && opening == Some(r.value.opening)
              && r.value.measuredElapsed == w.Reading(w.ticks - 1) - r.value.opening.boundary.queryStarted
              && w.flushed == old(w.flushed) + cell.cycles
    ensures r.Err? ==> Explained(r.error, cell, opening, w, w.Reading(old(w.ticks)))
    ensures PromptRun(w, cell.Warmup(), cell.cycles, old(Now(w))) ==>
              && r.Ok? && w.ticks == old(w.ticks) + 3 * cell.cycles + 8
              && r.value.opening.boundary.queryStarted == w.Reading(old(w.ticks) + 3 * cell.Warmup() + 3)
  {
    ghost var c := Now(w);
    ghost var prompt := PromptRun(w, cell.Warmup(), cell.cycles, c);
    if prompt { PromptFromStart(w, cell.Warmup(), cell.cycles, c); }
    var started := w.Now();
    var window, o;
    ghost var start;
    window, o, opening, start := RunFresh(cell.Warmup(), cell.cycles, started, w, horizon, c);
    if window.Err? { return Err(window.error), opening; }
    if window.value.None? { return Err(NoWarmupBoundary), opening; }
    if prompt { PromptClose(w, cell.Warmup(), cell.cycles, c, window.value.value); }
    r := Finish(window.value.value, cell, started, o, w, horizon);
  }
}
