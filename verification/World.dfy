/**
  What the measuring loops talk to: a clock, a commit, a flush, a waiter, a
  metadata query and a pause, with a record of every call.
 */
module World {
  import opened Basics
  import opened Accounting

  const SECOND := 1_000_000_000
  const MAX_BUDGET := 30 * SECOND
  const PAUSE_SLICE := 1_000_000

  datatype CommitReply = Committed | CommitStalled(detail: string) | CommitFailed(error: string)
  datatype WaitReply = Cleared | TimedOut | WaitStalled(detail: string) | WaitFailed(error: string)
  datatype QueryReply = Sampled(compactions: nat, snapshot: Snapshot) | QueryFailed(error: string)

  datatype FlushReply = Flushed | FlushFailed(error: string)

  datatype Call =
    | Read(at: nat)
    | Commit(committed: CommitReply)
    | Wait(slice: nat, waited: WaitReply)
    | Query(remaining: nat, sampled: QueryReply)
    | Pause(allowance: nat)
    | Flush(flushed: FlushReply)

  /** Calls in the order they were made, the latest outermost. */
  datatype History = Start | After(earlier: History, call: Call)

  function Append(base: History, calls: History): History {
    match calls
    case Start => base
    case After(earlier, call) => After(Append(base, earlier), call)
  }

  /** How many of the calls are such. */
  function CountOf(calls: History, such: Call -> bool): nat {
    if calls.Start? then 0 else CountOf(calls.earlier, such) + (if such(calls.call) then 1 else 0)
  }

  function Min(a: nat, b: nat): nat {
    if a <= b then a else b
  }

  /** The time from `earlier` to `later`, zero if the clock ran backwards. */
  function Since(later: nat, earlier: nat): nat {
    if later >= earlier then later - earlier else 0
  }

  /**
    The replies are arbitrary streams; each call takes the next one. The ghost
    maps hold the same replies for use in specifications.
   */
  class Environment {
    const clock: nat -> nat
    const commits: nat -> CommitReply
    const waits: nat -> WaitReply
    const queries: nat -> QueryReply
    const flushes: nat -> FlushReply
    ghost const times: imap<nat, nat>
    ghost const committed: imap<nat, CommitReply>
    ghost const answered: imap<nat, WaitReply>
    ghost const sampled: imap<nat, QueryReply>
    ghost const persisted: imap<nat, FlushReply>
    var ticks: nat
    var attempted: nat
    var waited: nat
    var queried: nat
    var flushed: nat
    ghost var log: History

    constructor (clock: nat -> nat, commits: nat -> CommitReply, waits: nat -> WaitReply, queries: nat -> QueryReply,
                 flushes: nat -> FlushReply)
      ensures Streams() && this.clock == clock && this.commits == commits && this.waits == waits
      ensures this.queries == queries && this.flushes == flushes
      ensures ticks == attempted == waited == queried == flushed == 0 && log == Start
    {
      this.clock, this.commits, this.waits, this.queries, this.flushes := clock, commits, waits, queries, flushes;
      times := imap k: nat | true :: clock(k);
      committed := imap k: nat | true :: commits(k);
      answered := imap k: nat | true :: waits(k);
      sampled := imap k: nat | true :: queries(k);
      persisted := imap k: nat | true :: flushes(k);
      ticks, attempted, waited, queried, flushed, log := 0, 0, 0, 0, 0, Start;
    }

    /** The maps hold the replies that calls receive. */
    ghost predicate Streams() {
      && (forall k: nat {:trigger clock(k)} :: Reading(k) == clock(k))
      && (forall k: nat {:trigger commits(k)} :: Commits(k) == commits(k))
      && (forall k: nat {:trigger waits(k)} :: Waits(k) == waits(k))
      && (forall k: nat {:trigger queries(k)} :: Queries(k) == queries(k))
      && (forall k: nat {:trigger flushes(k)} :: Flushes(k) == flushes(k))
    }

    ghost function Reading(k: nat): nat {
      if k in times then times[k] else 0
    }

    ghost function Commits(k: nat): CommitReply {
      if k in committed then committed[k] else Committed
    }

    ghost function Waits(k: nat): WaitReply {
      if k in answered then answered[k] else Cleared
    }

    ghost function Queries(k: nat): QueryReply {
      if k in sampled then sampled[k] else QueryFailed("")
    }

    ghost function Flushes(k: nat): FlushReply {
      if k in persisted then persisted[k] else Flushed
    }

    /** The clock never runs backwards. */
    ghost predicate Monotone() {
      forall i: nat, j: nat :: i <= j ==> Reading(i) <= Reading(j)
    }

    /** From the `horizon`-th reading on the clock has reached `limit`. */
    ghost predicate Reaches(limit: nat, horizon: nat) {
      forall k: nat :: k >= horizon ==> Reading(k) >= limit
    }

    /** Every stall names its cause. */
    ghost predicate StallsExplained() {
      && (forall k: nat :: Commits(k).CommitStalled? ==> Commits(k).detail != "")
      && (forall k: nat :: Waits(k).WaitStalled? ==> Waits(k).detail != "")
    }

    /** Every sampled snapshot has its eighteen buckets in order. */
    ghost predicate SnapshotsFormed() {
      forall k: nat :: Queries(k).Sampled? ==> Canonical(Queries(k).snapshot)
    }

    method Now() returns (t: nat)
      requires Streams()
      modifies this
      ensures t == Reading(old(ticks)) && ticks == old(ticks) + 1 && log == After(old(log), Read(t))
      ensures attempted == old(attempted) && waited == old(waited) && queried == old(queried) && flushed == old(flushed)
    {
      t := clock(ticks);
      ticks := ticks + 1;
      log := After(log, Read(t));
    }

    method TryCommit() returns (r: CommitReply)
      requires Streams()
      modifies this
      ensures r == Commits(old(attempted)) && attempted == old(attempted) + 1 && log == After(old(log), Commit(r))
      ensures ticks == old(ticks) && waited == old(waited) && queried == old(queried) && flushed == old(flushed)
    {
      r := commits(attempted);
      attempted := attempted + 1;
      log := After(log, Commit(r));
    }

    method WaitForClear(slice: nat) returns (r: WaitReply)
      requires Streams()
      modifies this
      ensures r == Waits(old(waited)) && waited == old(waited) + 1 && log == After(old(log), Wait(slice, r))
      ensures ticks == old(ticks) && attempted == old(attempted) && queried == old(queried) && flushed == old(flushed)
    {
      r := waits(waited);
      waited := waited + 1;
      log := After(log, Wait(slice, r));
    }

    method QueryAndSnapshot(remaining: nat) returns (r: QueryReply)
      requires Streams()
      modifies this
      ensures r == Queries(old(queried)) && queried == old(queried) + 1 && log == After(old(log), Query(remaining, r))
      ensures ticks == old(ticks) && attempted == old(attempted) && waited == old(waited) && flushed == old(flushed)
    {
      r := queries(queried);
      queried := queried + 1;
      log := After(log, Query(remaining, r));
    }

    method Sleep(allowance: nat)
      modifies this
      ensures log == After(old(log), Pause(allowance))
      ensures ticks == old(ticks) && attempted == old(attempted) && waited == old(waited) && queried == old(queried)
      ensures flushed == old(flushed)
    {
      log := After(log, Pause(allowance));
    }

    method FlushFamily() returns (r: FlushReply)
      requires Streams()
      modifies this
      ensures r == Flushes(old(flushed)) && flushed == old(flushed) + 1 && log == After(old(log), Flush(r))
      ensures ticks == old(ticks) && attempted == old(attempted) && waited == old(waited) && queried == old(queried)
    {
      r := flushes(flushed);
      flushed := flushed + 1;
      log := After(log, Flush(r));
    }
  }

  // ---------------------------------------------------------------- admission

  /** What may be asked for with `remaining` time left, waiting at most `waitSlice` at a time. */
  predicate Allowed(call: Call, remaining: nat, waitSlice: nat) {
    match call
    case Read(_) => true
    case Commit(_) => true
    case Flush(_) => false
    case Wait(slice, _) => slice == Min(remaining, waitSlice)
    case Query(r, _) => r == remaining
    case Pause(allowance) => allowance == Min(remaining, 1_000_000)
  }

  /**
    Every call but a clock reading directly follows a reading before the
    deadline, and asks for no more than is left.
   */
  predicate Admitted(calls: History, deadline: nat, waitSlice: nat) {
    match calls
    case Start => true
    case After(earlier, Read(_)) => Admitted(earlier, deadline, waitSlice)
    case After(After(first, Read(at)), call) =>
      Admitted(first, deadline, waitSlice) && at < deadline && Allowed(call, deadline - at, waitSlice)
    case _ => false
  }

  /** The deadline is set by the first reading and never moves. */
  function Deadline(started: nat, budget: nat, cellDeadline: nat): nat {
    Min(started + Min(budget, MAX_BUDGET), cellDeadline)
  }

  /** Time is left while neither the budget, nor thirty seconds, nor the cell's own deadline has passed. */
  lemma DeadlineExactly(started: nat, budget: nat, cellDeadline: nat, now: nat)
    ensures now < Deadline(started, budget, cellDeadline) <==>
            now < started + budget && now < started + 30 * SECOND && now < cellDeadline
  {
  }
}
