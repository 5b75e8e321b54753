/** Sampling metadata until no persistent operation is active, and the record's independent checks. */
module MetadataBoundary {
  import opened Basics
  import opened CounterTree
  import opened Accounting
  import opened AccountingJson
  import opened World

  datatype Samples = Samples(samples: nat, active: nat, pauses: nat, requested: nat, largest: nat, paused: nat,
                             finalActive: nat)

  datatype Boundary = Boundary(compactions: nat, snapshot: Snapshot, queryStarted: nat)

  datatype BoundaryError = Expired | QueryError(error: string)

  function Nanos(duration: nat): nat {
    Min(duration, MAX_U64)
  }

  function Max(a: nat, b: nat): nat {
    if a >= b then a else b
  }

  /** Active operations in the persistent buckets among the first `n`, saturating. */
  function ActiveAmong(buckets: seq<Bucket>, n: nat): nat
    requires n <= |buckets|
    decreases n, buckets
  {
    if n == 0 then 0
    else
      var rest := ActiveAmong(buckets, n - 1);
      if buckets[n - 1].medium.Persistent? then Add(rest, buckets[n - 1].active).0 else rest
  }

  function PersistentActive(s: Snapshot): nat {
    ActiveAmong(s.buckets, |s.buckets|)
  }

  /** The same without saturation. */
  function ActiveTotal(buckets: seq<Bucket>, n: nat): nat
    requires n <= |buckets|
  {
    if n == 0 then 0
    else ActiveTotal(buckets, n - 1) + (if buckets[n - 1].medium.Persistent? then buckets[n - 1].active else 0)
  }

  lemma {:induction false} ActiveAmongIsTotal(buckets: seq<Bucket>, n: nat)
    requires n <= |buckets|
    ensures ActiveAmong(buckets, n) == Min(ActiveTotal(buckets, n), MAX_U64)
  {
    if n > 0 { ActiveAmongIsTotal(buckets, n - 1); }
  }

  lemma {:induction false} ActiveAmongIsZero(buckets: seq<Bucket>, n: nat)
    requires n <= |buckets|
    ensures ActiveAmong(buckets, n) == 0 <==>
            forall i :: 0 <= i < n && buckets[i].medium.Persistent? ==> buckets[i].active == 0
  {
    if n > 0 { ActiveAmongIsZero(buckets, n - 1); }
  }

  lemma IdleIsZero(s: Snapshot)
    ensures PersistentActive(s) == 0 <==> PersistentIdle(s)
  {
    ActiveAmongIsZero(s.buckets, |s.buckets|);
  }

  /** Nothing has been counted yet. */
  predicate Unused(t: Samples) {
    t.samples == t.active == t.pauses == t.requested == t.largest == t.paused == t.finalActive == 0
  }

  class Observation {
    var samples: nat
    var active: nat
    var pauses: nat
    var requested: nat
    var largest: nat
    var paused: nat
    var elapsed: nat
    var finalActive: nat
    var complete: bool

    constructor ()
      ensures Unused(Counts()) && elapsed == 0 && !complete
    {
      samples, active, pauses, requested, largest, paused := 0, 0, 0, 0, 0, 0;
      elapsed, finalActive, complete := 0, 0, false;
    }

    function Counts(): Samples
      reads this
    {
      Samples(samples, active, pauses, requested, largest, paused, finalActive)
    }
  }

  // ---------------------------------------------------------------- what the counters count

  function CountedQuery(t: Samples, reply: QueryReply): Samples {
    match reply
    case QueryFailed(_) => t.(samples := t.samples + 1)
    case Sampled(_, s) =>
      t.(samples := t.samples + 1, finalActive := PersistentActive(s),
         active := t.active + Flag(PersistentActive(s) > 0))
  }

  function CountedPause(t: Samples, allowance: nat): Samples {
    t.(pauses := t.pauses + 1, requested := t.requested + allowance, largest := Max(t.largest, allowance))
  }

  /** What a conversation adds to the counters; a reading right after a pause closes its interval. */
  function Counted(t: Samples, calls: History): Samples {
    match calls
    case Start => t
    case After(earlier, Query(_, reply)) => CountedQuery(Counted(t, earlier), reply)
    case After(earlier, Pause(allowance)) => CountedPause(Counted(t, earlier), allowance)
    case After(earlier, Read(at)) =>
      var before := Counted(t, earlier);
      if earlier.After? && earlier.call.Pause? && earlier.earlier.After? && earlier.earlier.call.Read?
      then before.(paused := before.paused + Nanos(Since(at, earlier.earlier.call.at)))
      else before
    case After(earlier, _) => Counted(t, earlier)
  }

  predicate IsQuery(c: Call) {
    c.Query?
  }

  predicate FindsActive(c: Call) {
    c.Query? && c.sampled.Sampled? && !PersistentIdle(c.sampled.snapshot)
  }

  predicate IsPause(c: Call) {
    c.Pause?
  }

  /** All pauses together, and the longest. */
  function Requested(calls: History): nat {
    if calls.Start? then 0 else Requested(calls.earlier) + (if calls.call.Pause? then calls.call.allowance else 0)
  }

  function Longest(calls: History): nat {
    if calls.Start? then 0
    else Max(Longest(calls.earlier), if calls.call.Pause? then calls.call.allowance else 0)
  }

  /** Each counter counts its calls. */
  lemma {:induction false} CountersCountCalls(t: Samples, calls: History)
    ensures
      var u := Counted(t, calls);
      && u.samples == t.samples + CountOf(calls, IsQuery) && u.active == t.active + CountOf(calls, FindsActive)
      && u.pauses == t.pauses + CountOf(calls, IsPause)
      && u.requested == t.requested + Requested(calls) && u.largest == Max(t.largest, Longest(calls))
  {
    if calls.After? {
      CountersCountCalls(t, calls.earlier);
      if calls.call.Query? && calls.call.sampled.Sampled? { IdleIsZero(calls.call.sampled.snapshot); }
    }
  }

  // ---------------------------------------------------------------- laws

  /** Pauses requested so far, against their number and the largest of them. */
  predicate PauseLaw(t: Samples) {
    && t.largest <= 1_000_000
    && if t.pauses == 0 then t.requested == t.largest == t.paused == 0
       else 0 < t.largest <= t.requested && t.pauses <= t.requested <= t.pauses * t.largest
  }

  lemma PauseKeepsLaw(t: Samples, allowance: nat, slept: nat)
    requires PauseLaw(t) && 0 < allowance <= PAUSE_SLICE
    ensures PauseLaw(CountedPause(t, allowance).(paused := t.paused + slept))
  {
    OneMorePause(t.pauses, t.requested, t.largest, allowance, Max(t.largest, allowance));
  }

  lemma OneMorePause(pauses: nat, requested: nat, largest: nat, allowance: nat, largest': nat)
    requires requested <= pauses * largest && largest <= largest' && allowance <= largest'
    ensures requested + allowance <= (pauses + 1) * largest'
  {
    assert pauses * largest <= pauses * largest';
    assert (pauses + 1) * largest' == pauses * largest' + largest';
  }

  /** Every sample but `idle` of them was active, and every active one was followed by a pause. */
  predicate Balanced(before: Samples, after: Samples, idle: nat) {
    && before.active <= after.active && before.paused <= after.paused
    && after.samples - before.samples == (after.active - before.active) + idle
    && after.pauses - before.pauses == after.active - before.active
    && (PauseLaw(before) ==> PauseLaw(after))
  }

  /** One idle sample after any number of active ones, each with its pause, in a record that was unused. */
  predicate OneCapture(t: Samples) {
    t.samples == t.active + 1 && t.pauses == t.active && PauseLaw(t)
  }

  lemma CapturedExactly(start: Samples, t: Samples)
    requires Unused(start)
    ensures Balanced(start, t, 1) <==> OneCapture(t)
  {
  }

  // ---------------------------------------------------------------- the loop

  ghost predicate InStep(o: Observation, w: Environment, base: History, start: Samples, calls: History, deadline: nat)
    reads o, w
  {
    w.Streams() && w.log == Append(base, calls) && Admitted(calls, deadline, 0) && o.Counts() == Counted(start, calls)
  }

  /** No pause is open. */
  predicate Rested(calls: History) {
    calls.After? ==> !calls.call.Pause?
  }

  /** Time spent paused lies within the readings taken from `tick` on. */
  ghost predicate WithinClock(o: Observation, w: Environment, paused: nat, tick: nat)
    reads o, w
  {
    w.ticks > tick && o.paused - paused <= w.Reading(w.ticks - 1) - w.Reading(tick)
  }

  /** The conversation ends in an idle sample taken before the deadline. */
  predicate EndsIdle(calls: History, b: Boundary, deadline: nat) {
    && calls.After? && calls.call.Read? && calls.call.at < deadline
    && calls.earlier.After? && calls.earlier.call.Query?
    && calls.earlier.call.sampled == Sampled(b.compactions, b.snapshot)
    && calls.earlier.earlier.After? && calls.earlier.earlier.call == Read(b.queryStarted)
    && PersistentIdle(b.snapshot)
  }

  /** This sample is the latest one asked for. */
  ghost predicate Latest(w: Environment, b: Boundary)
    reads w
  {
    w.queried > 0 && w.Queries(w.queried - 1) == Sampled(b.compactions, b.snapshot)
  }

  /** One query, counted, and the reading after it. */
  method QueryOnce(started: nat, queryStarted: nat, deadline: nat, o: Observation, w: Environment,
                   ghost base: History, ghost start: Samples, ghost prior: History)
    returns (candidate: QueryReply, capturedAt: nat, ghost calls: History)
    requires InStep(o, w, base, start, prior, deadline) && prior.After? && prior.call == Read(queryStarted)
             && queryStarted < deadline
    modifies o, w
    ensures InStep(o, w, base, start, calls, deadline)
    ensures calls == After(After(prior, Query(deadline - queryStarted, candidate)), Read(capturedAt))
    ensures capturedAt == w.Reading(old(w.ticks)) && w.ticks == old(w.ticks) + 1
            && candidate == w.Queries(old(w.queried))
    ensures w.attempted == old(w.attempted) && w.flushed == old(w.flushed) && w.queried == old(w.queried) + 1
    ensures o.elapsed == Nanos(Since(capturedAt, started)) && o.complete == old(o.complete)
    ensures o.Counts() == CountedQuery(old(o.Counts()), candidate)
  {
    var remaining := Since(deadline, queryStarted);
    o.samples := o.samples + 1;
    candidate := w.QueryAndSnapshot(remaining);
    calls := After(prior, Query(remaining, candidate));
    assert w.log == Append(base, calls);
    capturedAt := w.Now();
    calls := After(calls, Read(capturedAt));
    o.elapsed := Nanos(Since(capturedAt, started));
    if candidate.Sampled? {
      o.finalActive := PersistentActive(candidate.snapshot);
      if o.finalActive > 0 { o.active := o.active + 1; }
    }
  }

  /** The conversation ended in this failure. */
  predicate QueryFailedWith(calls: History, error: string) {
    && calls.After? && calls.earlier.After? && calls.earlier.call.Query?
    && calls.earlier.call.sampled == QueryFailed(error)
  }

  /** A conversation keeps its ending when it is put after earlier ones. */
  lemma QueryFailureShows(base: History, calls: History, error: string)
    requires QueryFailedWith(calls, error)
    ensures QueryFailedWith(Append(base, calls), error)
  {
  }

  /** The `k`-th query finds no persistent operation active. */
  ghost predicate IdleAnswer(w: Environment, k: nat) {
    w.Queries(k).Sampled? && PersistentIdle(w.Queries(k).snapshot)
  }

  /** So does the one asked for at reading `tick`, and both readings around it are in time. */
  ghost predicate IdleInTime(w: Environment, k: nat, tick: nat, deadline: nat) {
    IdleAnswer(w, k) && w.Reading(tick) < deadline && w.Reading(tick + 1) < deadline
  }

  /** One query between two readings; `None` when the sample was active and time is left. */
  method SampleOnce(started: nat, deadline: nat, o: Observation, w: Environment, ghost base: History,
                    ghost start: Samples, ghost prior: History)
    returns (r: Option<Result<Boundary, BoundaryError>>, ghost calls: History)
    requires InStep(o, w, base, start, prior, deadline) && Rested(prior)
    modifies o, w
    ensures InStep(o, w, base, start, calls, deadline) && Rested(calls)
    ensures old(w.ticks) < w.ticks <= old(w.ticks) + 2
    ensures w.attempted == old(w.attempted) && w.flushed == old(w.flushed)
    ensures r.Some? && r.value.Ok? ==> w.queried == old(w.queried) + 1
    ensures o.paused == old(o.paused)
    ensures o.elapsed == Nanos(Since(w.Reading(w.ticks - 1), started))
    ensures r.None? ==>
            o.Counts() == old(o.Counts()).(samples := old(o.samples) + 1, active := old(o.active) + 1,
                                           finalActive := o.finalActive)
                        && w.Reading(old(w.ticks)) < deadline
    ensures r.Some? && r.value.Ok? ==>
              && EndsIdle(calls, r.value.value, deadline) && Latest(w, r.value.value) && o.complete
              && w.ticks == old(w.ticks) + 2
              && calls.call.at == w.Reading(w.ticks - 1) && r.value.value.queryStarted == w.Reading(w.ticks - 2)
              && o.Counts() == old(o.Counts()).(samples := old(o.samples) + 1, finalActive := 0)
    ensures r == Some(Err(Expired)) ==> w.Reading(w.ticks - 1) >= deadline
    ensures r.Some? && r.value.Err? && r.value.error.QueryError? ==> QueryFailedWith(calls, r.value.error.error)
    ensures IdleInTime(w, old(w.queried), old(w.ticks), deadline) ==> r.Some? && r.value.Ok?
  {
    var queryStarted := w.Now();
    calls := After(prior, Read(queryStarted));
    o.elapsed := Nanos(Since(queryStarted, started));
    var remaining := Since(deadline, queryStarted);
    if remaining == 0 { return Some(Err(Expired)), calls; }
    var candidate, capturedAt;
    candidate, capturedAt, calls := QueryOnce(started, queryStarted, deadline, o, w, base, start, calls);
    if candidate.QueryFailed? { return Some(Err(QueryError(candidate.error))), calls; }
    IdleIsZero(candidate.snapshot);
    if capturedAt >= deadline { return Some(Err(Expired)), calls; }
    if o.finalActive == 0 {
      o.complete := true;
      return Some(Ok(Boundary(candidate.compactions, candidate.snapshot, queryStarted))), calls;
    }
    return None, calls;
  }

  /** One pause between two readings; false when no time is left for it. */
  method PauseOnce(deadline: nat, o: Observation, w: Environment, ghost base: History, ghost start: Samples,
                   ghost prior: History)
    returns (slept: bool, ghost calls: History)
    requires InStep(o, w, base, start, prior, deadline) && Rested(prior)
    modifies o, w
    ensures InStep(o, w, base, start, calls, deadline) && Rested(calls)
    ensures o.elapsed == old(o.elapsed) && w.attempted == old(w.attempted) && w.flushed == old(w.flushed)
    ensures !slept ==> w.ticks == old(w.ticks) + 1 && w.Reading(w.ticks - 1) >= deadline && o.paused == old(o.paused)
    ensures slept ==>
              var allowance := Min(Since(deadline, w.Reading(old(w.ticks))), PAUSE_SLICE);
              && w.ticks == old(w.ticks) + 2 && w.Reading(old(w.ticks)) < deadline
              && o.Counts() == CountedPause(old(o.Counts()), allowance).(
                   paused := old(o.paused) + Nanos(Since(w.Reading(w.ticks - 1), w.Reading(old(w.ticks)))))
  {
    var pauseStarted := w.Now();
    calls := After(prior, Read(pauseStarted));
    ghost var counts := o.Counts();
    assert counts == Counted(start, calls);
    var remaining := Since(deadline, pauseStarted);
    if remaining == 0 { return false, calls; }
    var allowance := Min(remaining, PAUSE_SLICE);
    o.pauses := o.pauses + 1;
    o.requested := o.requested + Nanos(allowance);
    o.largest := Max(o.largest, Nanos(allowance));
    assert o.Counts() == CountedPause(counts, allowance);
    w.Sleep(allowance);
    calls := After(calls, Pause(allowance));
    assert w.log == Append(base, calls);
    assert Counted(start, calls) == CountedPause(counts, allowance);
    var now := w.Now();
    o.paused := o.paused + Nanos(Since(now, pauseStarted));
    calls := After(calls, Read(now));
    return true, calls;
  }

  /** An idle sample ended the search: what the record then says. */
  ghost predicate Captured(b: Boundary, o: Observation, w: Environment, calls: History, started: nat, deadline: nat)
    reads o, w
  {
    && EndsIdle(calls, b, deadline) && Latest(w, b) && o.complete && o.finalActive == 0
    && w.ticks > 1 && w.Reading(w.ticks - 1) < deadline && b.queryStarted == w.Reading(w.ticks - 2)
    && o.elapsed == Nanos(Since(w.Reading(w.ticks - 1), started))
  }

  /** One sample and, if it was active, one pause; `None` to go on. */
  method Round(started: nat, deadline: nat, o: Observation, w: Environment, ghost base: History, ghost start: Samples,
               ghost prior: History)
    returns (r: Option<Result<Boundary, BoundaryError>>, ghost calls: History)
    requires w.Monotone() && InStep(o, w, base, start, prior, deadline) && Rested(prior)
             && Balanced(start, o.Counts(), 0)
    modifies o, w
    ensures InStep(o, w, base, start, calls, deadline) && Rested(calls)
    ensures WithinClock(o, w, old(o.paused), old(w.ticks))
    ensures w.attempted == old(w.attempted) && w.flushed == old(w.flushed)
    ensures r.Some? && r.value.Ok? ==> w.queried == old(w.queried) + 1
    ensures r.None? ==> Balanced(start, o.Counts(), 0) && w.Reading(old(w.ticks)) < deadline
    ensures r.Some? && r.value.Ok? ==>
              && Balanced(start, o.Counts(), 1) && Captured(r.value.value, o, w, calls, started, deadline)
              && w.ticks == old(w.ticks) + 2
    ensures r == Some(Err(Expired)) ==> w.Reading(w.ticks - 1) >= deadline
    ensures r.Some? && r.value.Err? && r.value.error.QueryError? ==> QueryFailedWith(calls, r.value.error.error)
    ensures IdleInTime(w, old(w.queried), old(w.ticks), deadline) ==> r.Some? && r.value.Ok?
  {
    ghost var before := o.Counts();
    r, calls := SampleOnce(started, deadline, o, w, base, start, prior);
    if r.Some? { return; }
    ghost var counts, tick := o.Counts(), w.ticks;
    var slept;
    slept, calls := PauseOnce(deadline, o, w, base, start, calls);
    if !slept { return Some(Err(Expired)), calls; }
    BalancedAgain(start, before, counts, Min(Since(deadline, w.Reading(tick)), PAUSE_SLICE), o.paused - counts.paused);
  }

  /** The first sample is taken in time and idle. */
  ghost predicate AtOnce(w: Environment, queried: nat, tick: nat, budget: nat, cellDeadline: nat) {
    var deadline := Deadline(w.Reading(tick), budget, cellDeadline);
    IdleInTime(w, queried, tick + 1, deadline)
  }

  /**
    Captures one idle sample within the allowance set at the start. An accepted
    boundary is persistent-idle and was read before the deadline; the counters
    are what the calls amount to, with one sample more than pauses.
   */
  method CaptureBoundary(cellDeadline: nat, budget: nat, o: Observation, w: Environment, ghost horizon: nat)
    returns (r: Result<Boundary, BoundaryError>, ghost calls: History)
    requires w.Streams() && w.Monotone() && w.Reaches(cellDeadline, horizon)
    modifies o, w
    ensures InStep(o, w, old(w.log), old(o.Counts()), calls, Deadline(w.Reading(old(w.ticks)), budget, cellDeadline))
    ensures WithinClock(o, w, old(o.paused), old(w.ticks))
    ensures r.Ok? ==>
              var started := w.Reading(old(w.ticks));
              && Balanced(old(o.Counts()), o.Counts(), 1)
              && Captured(r.value, o, w, calls, started, Deadline(started, budget, cellDeadline))
              && old(w.ticks) + 3 <= w.ticks
    ensures r == Err(Expired) ==> w.Reading(w.ticks - 1) >= Deadline(w.Reading(old(w.ticks)), budget, cellDeadline)
    ensures r.Err? && r.error.QueryError? ==> QueryFailedWith(calls, r.error.error)
    ensures w.attempted == old(w.attempted) && w.flushed == old(w.flushed)
    ensures AtOnce(w, old(w.queried), old(w.ticks), budget, cellDeadline) ==>
              r.Ok? && w.ticks == old(w.ticks) + 3 && w.queried == old(w.queried) + 1
  {
    ghost var base, start := w.log, o.Counts();
    var started := w.Now();
    var deadline := Deadline(started, budget, cellDeadline);
    calls := After(Start, Read(started));
    while true
      invariant InStep(o, w, base, start, calls, deadline) && Rested(calls)
      invariant WithinClock(o, w, old(o.paused), old(w.ticks))
      invariant Balanced(start, o.Counts(), 0)
      invariant w.attempted == old(w.attempted) && w.flushed == old(w.flushed)
      invariant AtOnce(w, old(w.queried), old(w.ticks), budget, cellDeadline) ==>
                  w.queried == old(w.queried) && w.ticks == old(w.ticks) + 1
      decreases horizon - w.ticks
    {
      var found;
      found, calls := Round(started, deadline, o, w, base, start, calls);
      if found.Some? { return found.value, calls; }
    }
  }

  lemma BalancedAgain(start: Samples, before: Samples, sampled: Samples, allowance: nat, slept: nat)
    requires Balanced(start, before, 0) && 0 < allowance <= PAUSE_SLICE
    requires sampled == before.(samples := before.samples + 1, active := before.active + 1,
                                finalActive := sampled.finalActive)
    ensures Balanced(start, CountedPause(sampled, allowance).(paused := sampled.paused + slept), 0)
  {
    if PauseLaw(start) { PauseKeepsLaw(sampled, allowance, slept); }
  }

  // ---------------------------------------------------------------- the independent checks

  function PersistentCount(items: seq<Value>, n: nat): nat
    requires n <= |items|
    decreases n, items
  {
    if n == 0 then 0 else PersistentCount(items, n - 1) + Flag(IsPersistent(items[n - 1]))
  }

  /** The reader's sum; a missing number or an overflow is an error. */
  function ReadActiveAmong(items: seq<Value>, n: nat): Option<nat>
    requires n <= |items|
    decreases n, items
  {
    if n == 0 then Some(0)
    else if !IsPersistent(items[n - 1]) then ReadActiveAmong(items, n - 1)
    else
      var rest := ReadActiveAmong(items, n - 1);
      var active := Number(items[n - 1], ActiveOperations);
      if rest.None? || active.None? || rest.value + active.value > MAX_U64 then None
      else Some(rest.value + active.value)
  }

  function ReadPersistentActive(s: Value): Option<nat> {
    var buckets := ArrayAt(s, Buckets);
    if buckets.None? || |buckets.value| != 18 || PersistentCount(buckets.value, |buckets.value|) != 9 then None
    else ReadActiveAmong(buckets.value, |buckets.value|)
  }

  function PersistentPlaces(items: seq<Value>, n: nat): set<nat>
    requires n <= |items|
  {
    set i: nat | i < n && IsPersistent(items[i])
  }

  lemma {:induction false} PersistentCountIsSize(items: seq<Value>, n: nat)
    requires n <= |items|
    ensures PersistentCount(items, n) == |PersistentPlaces(items, n)|
  {
    if n > 0 {
      PersistentCountIsSize(items, n - 1);
      var before := PersistentPlaces(items, n - 1);
      assert PersistentPlaces(items, n) == if IsPersistent(items[n - 1]) then before + {n - 1} else before;
    }
  }

  /** Whatever the document: a number is read only from eighteen buckets, nine of them persistent. */
  lemma ReadNeedsNinePersistent(v: Value)
    requires ReadPersistentActive(v).Some?
    ensures ArrayAt(v, Buckets).Some? && |ArrayAt(v, Buckets).value| == 18
    ensures |PersistentPlaces(ArrayAt(v, Buckets).value, 18)| == 9
  {
    PersistentCountIsSize(ArrayAt(v, Buckets).value, |ArrayAt(v, Buckets).value|);
  }

  /** The gauges of `items` are those of the buckets, persistent ones at even places. */
  predicate Mirrors(items: seq<Value>, buckets: seq<Bucket>) {
    |items| == |buckets| && forall i :: 0 <= i < |items| ==> MirrorsAt(items[i], buckets[i], i)
  }

  predicate MirrorsAt(v: Value, b: Bucket, i: nat) {
    && (IsPersistent(v) <==> b.medium.Persistent?) && (b.medium.Persistent? <==> i % 2 == 0)
    && Number(v, ActiveOperations) == Some(b.active)
  }

  lemma {:induction false} ActiveReads(items: seq<Value>, buckets: seq<Bucket>, n: nat)
    requires Mirrors(items, buckets) && n <= |items|
    ensures PersistentCount(items, n) == (n + 1) / 2
    ensures ReadActiveAmong(items, n) ==
            if ActiveTotal(buckets, n) <= MAX_U64 then Some(ActiveTotal(buckets, n)) else None
  {
    if n > 0 {
      ActiveReads(items, buckets, n - 1);
      assert MirrorsAt(items[n - 1], buckets[n - 1], n - 1);
    }
  }

  lemma DocumentMirrors(v: Value, s: Snapshot)
    requires DocumentOf(v, s)
    ensures Mirrors(ArrayAt(v, Buckets).value, s.buckets)
  {
    var items := ArrayAt(v, Buckets).value;
    forall i | 0 <= i < 18 ensures MirrorsAt(items[i], s.buckets[i], i) {
      assert Documents(items[i], s.buckets[i]);
      IntegrityReadsSettled(items[i], s.buckets[i]);
    }
  }

  lemma MirroredReads(v: Value, items: seq<Value>, buckets: seq<Bucket>)
    requires ArrayAt(v, Buckets) == Some(items) && |items| == 18 && Mirrors(items, buckets)
    ensures ReadPersistentActive(v) ==
            if ActiveTotal(buckets, |buckets|) <= MAX_U64 then Some(ActiveAmong(buckets, |buckets|)) else None
    ensures ReadPersistentActive(v) == Some(0) <==> ActiveAmong(buckets, |buckets|) == 0
  {
    ActiveReads(items, buckets, |buckets|);
    ActiveAmongIsTotal(buckets, |buckets|);
  }

  /** The reader's number is the loop's, unless it exceeds 64 bits, where one stops and the other saturates. */
  lemma ActiveReadsAgree(v: Value, s: Snapshot)
    requires DocumentOf(v, s)
    ensures ReadPersistentActive(v) ==
            if ActiveTotal(s.buckets, |s.buckets|) <= MAX_U64 then Some(PersistentActive(s)) else None
    ensures ReadPersistentActive(v) == Some(0) <==> PersistentIdle(s)
  {
    DocumentMirrors(v, s);
    MirroredReads(v, ArrayAt(v, Buckets).value, s.buckets);
    IdleIsZero(s);
  }

  datatype Record = Record(counts: Samples, elapsed: nat, complete: bool)

  /** What the reader demands of one recorded capture. */
  predicate RecordAccepted(r: Record, snapshot: Value, budget: nat, slice: nat) {
    var t := r.counts;
    && t.active + 1 == t.samples <= MAX_U64 && t.pauses == t.active
    && r.elapsed < budget && t.paused <= r.elapsed && t.largest <= slice
    && (if t.pauses == 0 then t.requested == t.largest == t.paused == 0
        else 0 < t.largest <= t.requested && t.pauses <= t.requested <= t.pauses * t.largest)
    && r.complete && t.finalActive == 0 && ReadPersistentActive(snapshot) == Some(0)
  }

  /** Every demand but that on the snapshot. */
  predicate InOrder(r: Record) {
    && OneCapture(r.counts) && r.counts.samples <= MAX_U64
    && r.counts.paused <= r.elapsed < 30 * SECOND && r.complete && r.counts.finalActive == 0
  }

  lemma RecordInOrder(r: Record, v: Value)
    ensures RecordAccepted(r, v, MAX_BUDGET, PAUSE_SLICE) <==> InOrder(r) && ReadPersistentActive(v) == Some(0)
  {
  }

  /** The reader accepts exactly the record of one complete capture, in time, of an idle snapshot. */
  lemma RecordAcceptedExactly(r: Record, v: Value, s: Snapshot)
    requires DocumentOf(v, s)
    ensures RecordAccepted(r, v, MAX_BUDGET, PAUSE_SLICE) <==> InOrder(r) && PersistentIdle(s)
  {
    RecordInOrder(r, v);
    ActiveReadsAgree(v, s);
  }

  /** A capture that began with an unused record satisfies its checker. */
  lemma CaptureIsAccepted(start: Samples, counts: Samples, elapsed: nat, snapshot: Snapshot)
    requires Unused(start) && Balanced(start, counts, 1)
    requires counts.paused <= elapsed < MAX_BUDGET && counts.finalActive == 0
    requires Canonical(snapshot) && PersistentIdle(snapshot) && counts.samples <= MAX_U64
    ensures RecordAccepted(Record(counts, elapsed, true), SnapshotJson(snapshot), MAX_BUDGET, PAUSE_SLICE)
  {
    CapturedExactly(start, counts);
    SnapshotIsDocumented(snapshot);
    RecordAcceptedExactly(Record(counts, elapsed, true), SnapshotJson(snapshot), snapshot);
  }
}
