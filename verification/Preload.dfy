/** Bulk loading: batch sizing, worker ranges, and retrying rejected batches. */
module Preload {
  import opened Basics
  import opened Accounting
  import opened World

  const DEFAULT_BATCH_OPS := 50_000
  const KEY_SIZE := 16
  const RETRY_BUDGET := 30 * SECOND
  const RETRY_SLICE := 50_000_000

  // ---------------------------------------------------------------- batch size

  function SaturatingAdd(a: nat, b: nat): nat {
    Min(a + b, MAX_U64)
  }

  function SaturatingMul(a: nat, b: nat): nat {
    Min(a * b, MAX_U64)
  }

  function PointBytes(keyLength: nat, valueLength: nat): nat {
    SaturatingAdd(SaturatingAdd(256, SaturatingMul(keyLength, 8)), SaturatingMul(valueLength, 2))
  }

  /** The staging a transaction of `points` points of `each` encoded bytes may need. */
  function Staging(each: nat, points: nat): nat {
    SaturatingMul(SaturatingAdd(16 * 1024, SaturatingMul(each, points)), 2)
  }

  lemma StagingIsMonotone(each: nat, m: nat, n: nat)
    requires m <= n
    ensures Staging(each, m) <= Staging(each, n)
  {
    assert each * m <= each * n;
  }

  lemma CutProduct(a: nat, n: nat)
    ensures Min(Min(a, MAX_U64) * n, MAX_U64) == Min(a * n, MAX_U64)
  {
    if a > MAX_U64 && n > 0 {
      assert a * n >= a * 1 && MAX_U64 * n >= MAX_U64 * 1;
    }
  }

  lemma CutStaging(product: nat)
    ensures Min(Min(16_384 + Min(product, MAX_U64), MAX_U64) * 2, MAX_U64) == Min(2 * (16_384 + product), MAX_U64)
  {
  }

  /** The saturating chain is the plain formula, cut off at the largest 64-bit number. */
  lemma StagingExactly(keyLength: nat, valueLength: nat, points: nat)
    ensures Staging(PointBytes(keyLength, valueLength), points) ==
            Min(2 * (16_384 + (256 + 8 * keyLength + 2 * valueLength) * points), MAX_U64)
  {
    var exact := 256 + 8 * keyLength + 2 * valueLength;
    assert PointBytes(keyLength, valueLength) == Min(exact, MAX_U64);
    CutProduct(exact, points);
    CutStaging(exact * points);
  }

  ghost predicate Monotone(cost: nat -> nat) {
    forall m: nat, n: nat :: m <= n ==> cost(m) <= cost(n)
  }

  /** The largest batch whose cost fits half the local bytes; one when none fits, the default when there is no limit. */
  method LargestBatch(localBytes: nat, cost: nat -> nat) returns (ops: nat)
    requires Monotone(cost)
    ensures 1 <= ops <= DEFAULT_BATCH_OPS
    ensures localBytes == 0 ==> ops == DEFAULT_BATCH_OPS
    ensures localBytes > 0 ==> forall n :: 1 < n <= DEFAULT_BATCH_OPS ==> (cost(n) <= localBytes / 2 <==> n <= ops)
  {
    if localBytes == 0 { return DEFAULT_BATCH_OPS; }
    var window := localBytes / 2;
    if cost(1) > window { return 1; }
    var low, high := 1, DEFAULT_BATCH_OPS;
    while low < high
      invariant 1 <= low <= high <= DEFAULT_BATCH_OPS && cost(low) <= window
      invariant forall n :: high < n <= DEFAULT_BATCH_OPS ==> cost(n) > window
    {
      var middle := low + (high - low + 1) / 2;
      if cost(middle) <= window {
        low := middle;
      } else {
        high := middle - 1;
      }
    }
    return low;
  }

  /** The largest number of 16-byte keys whose staging fits half the local bytes, from one up to the default. */
  ghost predicate LargestOps(ops: nat, localBytes: nat, valueLength: nat) {
    && 1 <= ops <= 50_000
    && (localBytes == 0 ==> ops == 50_000)
    && (localBytes > 0 ==> forall n :: 1 < n <= 50_000 ==>
          (Staging(PointBytes(16, valueLength), n) <= localBytes / 2 <==> n <= ops))
  }

  method PreloadBatchOps(localBytes: nat, valueLength: nat) returns (ops: nat)
    ensures LargestOps(ops, localBytes, valueLength)
  {
    var each := PointBytes(KEY_SIZE, valueLength);
    forall m: nat, n: nat | m <= n ensures Staging(each, m) <= Staging(each, n) { StagingIsMonotone(each, m, n); }
    var cost := (n: nat) => Staging(each, n);
    ops := LargestBatch(localBytes, cost);
    if localBytes > 0 {
      forall n | 1 < n <= DEFAULT_BATCH_OPS ensures Staging(each, n) <= localBytes / 2 <==> n <= ops {
        assert cost(n) == Staging(each, n);
      }
    }
  }

  // ---------------------------------------------------------------- committed batches

  datatype Batch = Batch(start: nat, end: nat)

  /** Non-empty batches of at most `ops` keys that cover `from..to` in order, without gap or overlap. */
  predicate Tiles(batches: seq<Batch>, from: nat, to: nat, ops: nat) {
    if batches == [] then from == to
    else
      var last := batches[|batches| - 1];
      && last.start < last.end == to && last.end - last.start <= ops
      && Tiles(batches[..|batches| - 1], from, last.start, ops)
  }

  /** The number of batches that hold a key. */
  function Holding(batches: seq<Batch>, key: nat): nat {
    if batches == [] then 0
    else
      var last := batches[|batches| - 1];
      Holding(batches[..|batches| - 1], key) + (if last.start <= key < last.end then 1 else 0)
  }

  /** Every key in range is in exactly one batch, and no other key is in any. */
  lemma {:induction false} TilesHoldExactly(batches: seq<Batch>, from: nat, to: nat, ops: nat, key: nat)
    requires Tiles(batches, from, to, ops)
    ensures from <= to && Holding(batches, key) == if from <= key < to then 1 else 0
  {
    if batches != [] { TilesHoldExactly(batches[..|batches| - 1], from, batches[|batches| - 1].start, ops, key); }
  }

  lemma HoldingOne(batches: seq<Batch>, b: Batch, key: nat)
    ensures Holding(batches + [b], key) == Holding(batches, key) + Holding([b], key)
  {
    assert (batches + [b])[..|batches|] == batches && [b][..0] == [];
  }

  lemma {:induction false} HoldingConcat(a: seq<Batch>, b: seq<Batch>, key: nat)
    ensures Holding(a + b, key) == Holding(a, key) + Holding(b, key)
  {
    if b == [] {
      assert a + b == a;
    } else {
      var n := |b| - 1;
      HoldingConcat(a, b[..n], key);
      HoldingOne(a + b[..n], b[n], key);
      HoldingOne(b[..n], b[n], key);
      assert a + b == (a + b[..n]) + [b[n]] && b == b[..n] + [b[n]];
    }
  }

  /** Moving one batch to the end changes no count. */
  lemma MoveLast(batches: seq<Batch>, j: nat, key: nat)
    requires j < |batches|
    ensures
      var rest := batches[..j] + batches[j + 1..];
      && Holding(batches, key) == Holding(rest + [batches[j]], key)
      && multiset(rest) == multiset(batches) - multiset{batches[j]}
  {
    var b, x, y := batches[j], batches[..j], batches[j + 1..];
    assert batches == (x + [b]) + y;
    HoldingConcat(x + [b], y, key);
    HoldingConcat(x, [b], key);
    HoldingConcat(x + y, [b], key);
    HoldingConcat(x, y, key);
    assert multiset(batches) == multiset(x) + multiset{b} + multiset(y);
    assert multiset(x + y) == multiset(x) + multiset(y);
  }

  /** How often a key is held does not depend on the order in which the batches were committed. */
  lemma {:induction false} HoldingIgnoresOrder(a: seq<Batch>, b: seq<Batch>, key: nat)
    requires multiset(a) == multiset(b)
    ensures Holding(a, key) == Holding(b, key)
    decreases |a|
  {
    assert |multiset(a)| == |a| && |multiset(b)| == |b|;
    if a != [] {
      var n := |a| - 1;
      var init := a[..n];
      assert a == init + [a[n]];
      assert a[n] in multiset(b);
      var j :| 0 <= j < |b| && b[j] == a[n];
      MoveLast(b, j, key);
      var rest := b[..j] + b[j + 1..];
      assert multiset(init) == multiset(a) - multiset{a[n]};
      HoldingIgnoresOrder(init, rest, key);
      HoldingOne(init, a[n], key);
      HoldingOne(rest, a[n], key);
    }
  }

  lemma TileMore(batches: seq<Batch>, from: nat, to: nat, end: nat, ops: nat)
    requires Tiles(batches, from, to, ops) && to < end <= to + ops
    ensures Tiles(batches + [Batch(to, end)], from, end, ops)
  {
    assert (batches + [Batch(to, end)])[..|batches|] == batches;
  }

  // ---------------------------------------------------------------- loading

  datatype LoadError = RetryExhausted | LoadFailed(error: string)

  class Store {
    var batches: seq<Batch>
    var flushes: nat

    constructor ()
      ensures batches == [] && flushes == 0
    {
      batches, flushes := [], 0;
    }

    function Contents(): Stored
      reads this
    {
      Stored(batches, flushes)
    }
  }

  /** What is retried: one batch's transaction, or the closing flush. */
  datatype Operation = Load(batch: Batch) | Flush

  /** What is stored, and how often it was flushed. */
  datatype Stored = Stored(batches: seq<Batch>, flushes: nat)

  function Effect(op: Operation, before: Stored): Stored {
    match op
    case Load(batch) => before.(batches := before.batches + [batch])
    case Flush => before.(flushes := before.flushes + 1)
  }

  /**
    An accepted operation takes effect and a stalled one does not; of one that
    failed otherwise the caller cannot tell.
   */
  method Execute(op: Operation, store: Store, w: Environment) returns (reply: CommitReply)
    requires w.Streams()
    modifies store, w
    ensures store.Contents() in {old(store.Contents()), Effect(op, old(store.Contents()))}
    ensures reply.Committed? ==> store.Contents() == Effect(op, old(store.Contents()))
    ensures reply.CommitStalled? ==> store.Contents() == old(store.Contents())
    ensures w.ticks == old(w.ticks) && w.log == After(old(w.log), Commit(reply))
    ensures reply == w.Commits(old(w.attempted)) && w.attempted == old(w.attempted) + 1 && w.waited == old(w.waited)
  {
    reply := w.TryCommit();
    var landed: bool := *;
    if reply.Committed? || (reply.CommitFailed? && landed) {
      match op {
        case Load(batch) => store.batches := store.batches + [batch];
        case Flush => store.flushes := store.flushes + 1;
      }
    }
  }

  /** The clock passes every limit. */
  ghost predicate Unbounded(w: Environment, horizon: nat -> nat) {
    w.Streams() && forall limit: nat, k: nat :: k >= horizon(limit) ==> w.Reading(k) >= limit
  }

  /** Every attempt and wait so far was admitted before the deadline, each wait for at most a slice. */
  ghost predicate InTime(w: Environment, base: History, calls: History, deadline: nat)
    reads w
  {
    w.Streams() && w.log == Append(base, calls) && Admitted(calls, deadline, 50_000_000)
  }

  /** The call failed for another reason than a stall. */
  predicate Fails(call: Call, error: string) {
    call == Commit(CommitFailed(error)) || (call.Wait? && call.waited == WaitFailed(error))
  }

  /** Some attempt or wait is answered with this error. */
  ghost predicate Refused(w: Environment, error: string) {
    (exists k: nat :: w.Commits(k) == CommitFailed(error)) || (exists k: nat :: w.Waits(k) == WaitFailed(error))
  }

  /** Where a retry stands: about to attempt, waiting for clearance, cleared, or at its end. */
  datatype Phase = Trying | Stalled | Clear | Accepted | Failed | Broken

  /**
    The protocol of a retry: a rejected attempt is followed by waits until one
    clears, and only then, after another look at the clock, by the next attempt.
   */
  function PhaseOf(calls: History): Phase {
    match calls
    case Start => Clear
    case After(earlier, call) =>
      match (PhaseOf(earlier), call)
      case (Clear, Read(_)) => Trying
      case (Trying, Commit(Committed)) => Accepted
      case (Trying, Commit(CommitStalled(_))) => Stalled
      case (Trying, Commit(CommitFailed(_))) => Failed
      case (Stalled, Read(_)) => Stalled
      case (Stalled, Wait(_, Cleared)) => Clear
      case (Stalled, Wait(_, TimedOut)) => Stalled
      case (Stalled, Wait(_, WaitStalled(_))) => Stalled
      case (Stalled, Wait(_, WaitFailed(_))) => Failed
      case _ => Broken
  }

  method AwaitClear(deadline: nat, w: Environment, ghost horizon: nat -> nat, ghost base: History, ghost prior: History)
    returns (r: Result<(), LoadError>, ghost calls: History)
    requires Unbounded(w, horizon) && InTime(w, base, prior, deadline) && PhaseOf(prior).Stalled?
    modifies w
    ensures w.ticks > old(w.ticks) && InTime(w, base, calls, deadline) && calls.After? && !AttemptFailed(calls)
    ensures w.attempted == old(w.attempted)
    ensures w.Reading(old(w.ticks)) < deadline && w.Waits(old(w.waited)).Cleared? ==>
              r.Ok? && w.ticks == old(w.ticks) + 1 && w.waited == old(w.waited) + 1
    ensures r.Ok? ==> w.Reading(w.ticks - 1) < deadline && PhaseOf(calls).Clear?
    ensures r == Err(RetryExhausted) ==> w.Reading(w.ticks - 1) >= deadline && PhaseOf(calls).Stalled?
    ensures r.Err? && r.error.LoadFailed? ==>
              PhaseOf(calls).Failed? && Fails(calls.call, r.error.error) && Refused(w, r.error.error)
  {
    calls := prior;
    while true
      invariant w.ticks >= old(w.ticks) && InTime(w, base, calls, deadline) && PhaseOf(calls).Stalled?
      invariant w.attempted == old(w.attempted)
      invariant w.Reading(old(w.ticks)) < deadline && w.Waits(old(w.waited)).Cleared? ==>
                  w.ticks == old(w.ticks) && w.waited == old(w.waited)
      decreases horizon(deadline) - w.ticks
    {
      var now := w.Now();
      var remaining := Since(deadline, now);
      calls := After(calls, Read(now));
      if remaining == 0 { return Err(RetryExhausted), calls; }
      var slice := Min(remaining, RETRY_SLICE);
      var reply := w.WaitForClear(slice);
      calls := After(calls, Wait(slice, reply));
      match reply {
        case Cleared => return Ok(()), calls;
        case WaitFailed(error) => return Err(LoadFailed(error)), calls;
        case _ =>
      }
    }
  }

  /** The next `n` attempts stall, each wait clears at once, the attempt after them is accepted, all in time. */
  ghost predicate Clears(w: Environment, ticks: nat, attempted: nat, waited: nat, n: nat) {
    && (forall k: nat :: attempted <= k < attempted + n ==> w.Commits(k).CommitStalled?)
    && (forall k: nat :: waited <= k < waited + n ==> w.Waits(k).Cleared?)
    && w.Commits(attempted + n).Committed?
    && (forall k: nat :: ticks <= k <= ticks + 2 * n ==> w.Reading(k) < w.Reading(ticks) + 30 * SECOND)
  }

  lemma ClearsOnce(w: Environment, ticks: nat, attempted: nat, waited: nat, m: nat, n: nat)
    requires Clears(w, ticks, attempted, waited, m) && Clears(w, ticks, attempted, waited, n)
    ensures m == n
  {
    assert w.Commits(attempted + m).Committed? && w.Commits(attempted + n).Committed?;
  }

  /** The last call was an attempt that failed for another reason than a stall. */
  predicate AttemptFailed(calls: History) {
    calls.After? && calls.call.Commit? && calls.call.committed.CommitFailed?
  }

  /** What a retry's end says of its calls. */
  ghost predicate Ended(r: Result<(), LoadError>, w: Environment, calls: History, ticks: nat, deadline: nat) {
    && calls.After? && ticks > 0
    && match r
       case Ok(_) => PhaseOf(calls).Accepted?
       case Err(RetryExhausted) => PhaseOf(calls) in {Stalled, Trying} && w.Reading(ticks - 1) >= deadline
       case Err(LoadFailed(error)) => PhaseOf(calls).Failed? && Fails(calls.call, error) && Refused(w, error)
  }

  /** One attempt, and after a stall the wait for clearance; no result means to try again. */
  method Attempt(op: Operation, store: Store, w: Environment, deadline: nat, ghost horizon: nat -> nat,
                 ghost base: History, ghost prior: History)
    returns (r: Option<Result<(), LoadError>>, ghost calls: History)
    requires Unbounded(w, horizon) && InTime(w, base, prior, deadline) && PhaseOf(prior).Trying? && w.ticks > 0
    requires prior.After? && prior.call.Read? && prior.call.at < deadline
    modifies store, w
    ensures w.ticks >= old(w.ticks) && InTime(w, base, calls, deadline) && calls.After?
    ensures store.Contents() in {old(store.Contents()), Effect(op, old(store.Contents()))}
    ensures r.Some? && r.value.Ok? ==> store.Contents() == Effect(op, old(store.Contents()))
    ensures !(r.Some? && r.value.Ok?) && !AttemptFailed(calls) ==> store.Contents() == old(store.Contents())
    ensures r.Some? ==> Ended(r.value, w, calls, w.ticks, deadline)
    ensures r.None? ==> w.ticks > old(w.ticks) && PhaseOf(calls).Trying?
                        && calls.call == Read(w.Reading(w.ticks - 1)) && w.Reading(w.ticks - 1) < deadline
    ensures w.Commits(old(w.attempted)).Committed? ==>
              r.Some? && r.value.Ok? && w.ticks == old(w.ticks) && w.waited == old(w.waited)
              && w.attempted == old(w.attempted) + 1
    ensures w.Commits(old(w.attempted)).CommitStalled? && w.Waits(old(w.waited)).Cleared?
            && w.Reading(old(w.ticks)) < deadline && w.Reading(old(w.ticks) + 1) < deadline ==>
              r.None? && w.ticks == old(w.ticks) + 2 && w.waited == old(w.waited) + 1
              && w.attempted == old(w.attempted) + 1
  {
    var reply := Execute(op, store, w);
    calls := After(prior, Commit(reply));
    match reply {
      case Committed => return Some(Ok(())), calls;
      case CommitFailed(error) => return Some(Err(LoadFailed(error))), calls;
      case CommitStalled(_) =>
    }
    var cleared;
    cleared, calls := AwaitClear(deadline, w, horizon, base, calls);
    if cleared.Err? { return Some(cleared), calls; }
    var now := w.Now();
    calls := After(calls, Read(now));
    if Since(deadline, now) == 0 { return Some(Err(RetryExhausted)), calls; }
    return None, calls;
  }

  /**
    Retries until accepted: success means the operation took effect exactly
    once, failure that it took effect at most once, and not at all unless the
    last attempt itself failed. The calls keep the retry protocol, each attempt
    and wait begins before the deadline captured at the start, and it gives up
    only at that deadline or with the error of its last call. An operation that
    is accepted after any number of stalls, each cleared in time, succeeds.
   */
  method RetryWriteStall(op: Operation, store: Store, w: Environment, ghost horizon: nat -> nat)
    returns (r: Result<(), LoadError>, ghost calls: History)
    requires Unbounded(w, horizon)
    modifies store, w
    ensures store.Contents() in {old(store.Contents()), Effect(op, old(store.Contents()))}
    ensures r.Ok? ==> store.Contents() == Effect(op, old(store.Contents()))
    ensures r.Err? && !AttemptFailed(calls) ==> store.Contents() == old(store.Contents())
    ensures w.ticks > old(w.ticks) && InTime(w, old(w.log), calls, w.Reading(old(w.ticks)) + 30 * SECOND)
    ensures Ended(r, w, calls, w.ticks, w.Reading(old(w.ticks)) + 30 * SECOND)
    ensures forall n: nat :: Clears(w, old(w.ticks), old(w.attempted), old(w.waited), n) ==>
              r.Ok? && w.ticks == old(w.ticks) + 2 * n + 1 && w.attempted == old(w.attempted) + n + 1
              && w.waited == old(w.waited) + n
  {
    ghost var base, stalls: nat, expected: nat := w.log, 0, *;
    if n: nat :| Clears(w, w.ticks, w.attempted, w.waited, n) { expected := n; }
    ghost var prompt := Clears(w, w.ticks, w.attempted, w.waited, expected);
    forall n: nat | Clears(w, w.ticks, w.attempted, w.waited, n) ensures prompt && n == expected {
      ClearsOnce(w, w.ticks, w.attempted, w.waited, n, expected);
    }
    var now: nat := w.Now();
    var deadline := now + RETRY_BUDGET;
    calls := After(Start, Read(now));
    while true
      invariant w.ticks > old(w.ticks) && InTime(w, base, calls, deadline) && PhaseOf(calls).Trying?
      invariant calls.After? && calls.call == Read(w.Reading(w.ticks - 1)) && w.Reading(w.ticks - 1) < deadline
      invariant store.Contents() == old(store.Contents())
      invariant prompt ==> stalls <= expected && w.ticks == old(w.ticks) + 2 * stalls + 1
                           && w.attempted == old(w.attempted) + stalls && w.waited == old(w.waited) + stalls
      decreases horizon(deadline) - w.ticks
    {
      var done;
      done, calls := Attempt(op, store, w, deadline, horizon, base, calls);
      if done.Some? { return done.value, calls; }
      stalls := stalls + 1;
    }
  }

  // ---------------------------------------------------------------- why a load failed

  /** A call made since `base` failed with this error. */
  predicate FailedSince(base: History, log: History, error: string) {
    log != base && log.After? && (Fails(log.call, error) || FailedSince(base, log.earlier, error))
  }

  predicate Grown(base: History, log: History) {
    log == base || (log.After? && Grown(base, log.earlier))
  }

  /** Between two readings since the `from`-th the clock advanced by a whole retry budget. */
  ghost predicate RanOut(w: Environment, from: nat, ticks: nat) {
    exists i: nat, j: nat :: from <= i <= j < ticks && w.Reading(j) >= w.Reading(i) + RETRY_BUDGET
  }

  ghost predicate CausedBy(error: LoadError, w: Environment, base: History, log: History, from: nat, ticks: nat) {
    match error
    case LoadFailed(e) => FailedSince(base, log, e) && Refused(w, e)
    case RetryExhausted => RanOut(w, from, ticks)
  }

  /** No attempt or wait is answered with an error. */
  ghost predicate Willing(w: Environment) {
    forall k: nat :: !w.Commits(k).CommitFailed? && !w.Waits(k).WaitFailed?
  }

  function Length(h: History): nat {
    if h.Start? then 0 else 1 + Length(h.earlier)
  }

  lemma {:induction false} GrownIsLonger(base: History, log: History)
    requires Grown(base, log)
    ensures Length(base) <= Length(log)
  {
    if log != base { GrownIsLonger(base, log.earlier); }
  }

  lemma {:induction false} GrownByCalls(base: History, calls: History)
    ensures Grown(base, Append(base, calls))
    ensures Length(Append(base, calls)) == Length(base) + Length(calls)
  {
    if calls.After? { GrownByCalls(base, calls.earlier); }
  }

  lemma {:induction false} GrownTwice(base: History, log: History, later: History)
    requires Grown(base, log) && Grown(log, later)
    ensures Grown(base, later)
  {
    if later != log { GrownTwice(base, log, later.earlier); }
  }

  lemma {:induction false} FailureStays(base: History, log: History, later: History, error: string)
    requires Grown(base, log) && Grown(log, later) && FailedSince(base, log, error)
    ensures FailedSince(base, later, error)
  {
    if later != log {
      FailureStays(base, log, later.earlier, error);
      GrownIsLonger(log, later.earlier);
      GrownIsLonger(base, log);
    }
  }

  /** What failed in the calls made since an earlier log failed since an even earlier one. */
  lemma {:induction false} FailureIsOlder(first: History, base: History, log: History, error: string)
    requires Grown(first, base) && Grown(base, log) && FailedSince(base, log, error)
    ensures FailedSince(first, log, error)
  {
    GrownIsLonger(base, log.earlier);
    GrownIsLonger(first, base);
    if !Fails(log.call, error) { FailureIsOlder(first, base, log.earlier, error); }
  }

  lemma CauseStays(error: LoadError, w: Environment, base: History, log: History, later: History, from: nat,
                   ticks: nat, ticks': nat)
    requires Grown(base, log) && Grown(log, later) && ticks <= ticks'
    requires CausedBy(error, w, base, log, from, ticks)
    ensures CausedBy(error, w, base, later, from, ticks')
  {
    if error.LoadFailed? {
      FailureStays(base, log, later, error.error);
    } else {
      var i: nat, j: nat :| from <= i <= j < ticks && w.Reading(j) >= w.Reading(i) + RETRY_BUDGET;
      assert from <= i <= j < ticks';
    }
  }

  lemma CauseIsOlder(error: LoadError, w: Environment, first: History, base: History, log: History, from: nat,
                     from': nat, ticks: nat)
    requires Grown(first, base) && Grown(base, log) && from <= from'
    requires CausedBy(error, w, base, log, from', ticks)
    ensures CausedBy(error, w, first, log, from, ticks)
  {
    if error.LoadFailed? {
      FailureIsOlder(first, base, log, error.error);
    } else {
      var i: nat, j: nat :| from' <= i <= j < ticks && w.Reading(j) >= w.Reading(i) + RETRY_BUDGET;
      assert from <= i <= j < ticks;
    }
  }

  /** The cause of a failed retry. */
  lemma RetryCause(error: LoadError, w: Environment, base: History, calls: History, from: nat, ticks: nat)
    requires from < ticks && Ended(Err(error), w, calls, ticks, w.Reading(from) + RETRY_BUDGET)
    ensures Grown(base, Append(base, calls)) && CausedBy(error, w, base, Append(base, calls), from, ticks)
  {
    GrownByCalls(base, calls);
    assert from <= from <= ticks - 1 < ticks;
  }

  /** One pass of a worker's loop: the next batch of what is left to it. */
  method LoadNext(start: nat, end: nat, ops: nat, store: Store, w: Environment, ghost horizon: nat -> nat)
    returns (r: Result<nat, LoadError>)
    requires Unbounded(w, horizon) && ops > 0 && start < end
    modifies store, w
    ensures r.Ok? ==> r.value == Min(start + ops, end)
    ensures store.batches == old(store.batches) + [Batch(start, Min(start + ops, end))]
            || (r.Err? && store.batches == old(store.batches))
    ensures store.flushes == old(store.flushes)
    ensures Grown(old(w.log), w.log) && w.ticks >= old(w.ticks)
    ensures r.Err? ==> CausedBy(r.error, w, old(w.log), w.log, old(w.ticks), w.ticks)
  {
    var next := Min(start + ops, end);
    var loaded;
    ghost var calls;
    loaded, calls := RetryWriteStall(Load(Batch(start, next)), store, w, horizon);
    GrownByCalls(old(w.log), calls);
    if loaded.Err? {
      RetryCause(loaded.error, w, old(w.log), calls, old(w.ticks), w.ticks);
      return Err(loaded.error);
    }
    return Ok(next);
  }

  /** One worker's range. Success adds batches that cover it exactly; failure, batches that cover an initial part. */
  method LoadRange(keys: Batch, ops: nat, store: Store, w: Environment, ghost horizon: nat -> nat)
    returns (r: Result<(), LoadError>, ghost added: seq<Batch>, ghost reached: nat)
    requires Unbounded(w, horizon) && ops > 0 && keys.start <= keys.end
    modifies store, w
    ensures store.batches == old(store.batches) + added && store.flushes == old(store.flushes)
    ensures keys.start <= reached <= keys.end && Tiles(added, keys.start, reached, ops)
    ensures r.Ok? ==> reached == keys.end
    ensures r.Err? ==> CausedBy(r.error, w, old(w.log), w.log, old(w.ticks), w.ticks)
  {
    var start := keys.start;
    added := [];
    while start < keys.end
      invariant Grown(old(w.log), w.log) && w.ticks >= old(w.ticks)
      invariant keys.start <= start <= keys.end && Tiles(added, keys.start, start, ops)
      invariant store.batches == old(store.batches) + added && store.flushes == old(store.flushes)
    {
      ghost var before, end := store.batches, Min(start + ops, keys.end);
      ghost var log, tick := w.log, w.ticks;
      var next := LoadNext(start, keys.end, ops, store, w, horizon);
      GrownTwice(old(w.log), log, w.log);
      if next.Err? {
        CauseIsOlder(next.error, w, old(w.log), log, w.log, old(w.ticks), tick, w.ticks);
      }
      TileMore(added, keys.start, start, end, ops);
      reached := if store.batches == before then start else end;
      if store.batches != before { added := added + [Batch(start, end)]; }
      if next.Err? { return Err(next.error), added, reached; }
      start := next.value;
    }
    return Ok(()), added, start;
  }

  // ---------------------------------------------------------------- parallel workers

  function WorkerCount(initialKeys: nat, workers: nat): (n: nat)
    ensures n > 0
  {
    Min(if initialKeys >= 1 then initialKeys else 1, if workers >= 1 then workers else 1)
  }

  /** As many workers as asked for, but no more than keys, and at least one. */
  lemma WorkerCountExactly(initialKeys: nat, workers: nat, m: nat)
    ensures m <= WorkerCount(initialKeys, workers) <==> m <= 1 || (m <= initialKeys && m <= workers)
  {
  }

  /** A worker's first key, past the end for workers that are not needed. */
  function Boundary(worker: nat, perWorker: nat, initialKeys: nat): nat {
    Min(worker * perWorker, initialKeys)
  }

  lemma BoundaryIncreases(worker: nat, perWorker: nat, initialKeys: nat)
    ensures Boundary(worker, perWorker, initialKeys) <= Boundary(worker + 1, perWorker, initialKeys)
  {
    assert (worker + 1) * perWorker == worker * perWorker + perWorker;
  }

  /** The keys of each worker. */
  function Share(initialKeys: nat, workers: nat): nat
    requires workers > 0
  {
    (initialKeys + workers - 1) / workers
  }

  /** A share is the smallest that lets the workers cover all keys. */
  lemma ShareIsLeast(initialKeys: nat, workers: nat, share: nat)
    requires workers > 0
    ensures workers * share >= initialKeys <==> share >= Share(initialKeys, workers)
  {
    var per := Share(initialKeys, workers);
    assert initialKeys + workers - 1 == workers * per + (initialKeys + workers - 1) % workers;
    if share >= per { assert workers * share >= workers * per; } else { assert workers * share <= workers * (per - 1); }
  }

  /** A batch takes as many keys as it may, up to the end of its worker's range. */
  predicate Portion(b: Batch, ops: nat, perWorker: nat, initialKeys: nat) {
    b.start < b.end == Min(b.start + ops, Boundary(Owner(b.start, perWorker) + 1, perWorker, initialKeys))
  }

  ghost predicate Portioned(batches: seq<Batch>, ops: nat, perWorker: nat, initialKeys: nat) {
    forall b :: b in batches ==> Portion(b, ops, perWorker, initialKeys)
  }

  /** What is left to a worker, and its result once it is done. */
  datatype Worker = Worker(next: nat, end: nat, result: Option<Result<(), LoadError>>)

  predicate Succeeded(worker: Worker) {
    worker.result.Some? && worker.result.value.Ok?
  }

  /** The worker in whose range a key lies. */
  function Owner(key: nat, perWorker: nat): nat {
    if perWorker == 0 then 0 else key / perWorker
  }

  lemma OwnerOf(key: nat, perWorker: nat, worker: nat)
    requires worker * perWorker <= key < (worker + 1) * perWorker
    ensures Owner(key, perWorker) == worker
  {
    var q, rest := key / perWorker, key % perWorker;
    assert key == q * perWorker + rest;
    assert q < worker ==> (q + 1) * perWorker <= worker * perWorker;
    assert q > worker ==> (worker + 1) * perWorker <= q * perWorker;
  }

  lemma OwnerRange(key: nat, perWorker: nat)
    requires perWorker > 0
    ensures Owner(key, perWorker) * perWorker <= key < (Owner(key, perWorker) + 1) * perWorker
  {
    var q := key / perWorker;
    assert key == q * perWorker + key % perWorker;
    assert (q + 1) * perWorker == q * perWorker + perWorker;
  }

  predicate Reached(key: nat, perWorker: nat, reached: seq<nat>) {
    Owner(key, perWorker) < |reached| && key < reached[Owner(key, perWorker)]
  }

  /** Worker `k` has come as far as `reached[k]`: the keys before that are held once, all others not at all. */
  ghost predicate HeldUpTo(batches: seq<Batch>, perWorker: nat, reached: seq<nat>) {
    forall key: nat :: Holding(batches, key) == Flag(Reached(key, perWorker, reached))
  }

  ghost predicate WorkerOk(worker: Worker, reached: nat, first: nat, last: nat) {
    && first <= worker.next <= reached <= last == worker.end
    && (worker.result.None? ==> worker.next == reached < last)
    && (Succeeded(worker) ==> reached == last)
  }

  ghost predicate WorkersOk(crew: seq<Worker>, reached: seq<nat>, perWorker: nat, initialKeys: nat) {
    && |crew| == |reached|
    && forall k :: 0 <= k < |crew| ==>
         WorkerOk(crew[k], reached[k], Boundary(k, perWorker, initialKeys), Boundary(k + 1, perWorker, initialKeys))
  }

  /** Every worker's failure has its cause in the calls made since `base`. */
  ghost predicate Explained(crew: seq<Worker>, w: Environment, base: History, log: History, from: nat, ticks: nat) {
    forall k :: 0 <= k < |crew| && crew[k].result.Some? && crew[k].result.value.Err? ==>
      CausedBy(crew[k].result.value.error, w, base, log, from, ticks)
  }

  lemma ExplainedStays(crew: seq<Worker>, w: Environment, base: History, log: History, later: History, from: nat,
                       ticks: nat, ticks': nat)
    requires Grown(base, log) && Grown(log, later) && ticks <= ticks' && Explained(crew, w, base, log, from, ticks)
    ensures Explained(crew, w, base, later, from, ticks')
  {
    forall k | 0 <= k < |crew| && crew[k].result.Some? && crew[k].result.value.Err?
      ensures CausedBy(crew[k].result.value.error, w, base, later, from, ticks')
    {
      CauseStays(crew[k].result.value.error, w, base, log, later, from, ticks, ticks');
    }
  }

  /** What is left to the first `n` workers, counting one for not being done. */
  function Left(crew: seq<Worker>, n: nat): nat
    requires n <= |crew|
  {
    if n == 0 then 0 else Left(crew, n - 1) + LeftTo(crew[n - 1])
  }

  function LeftTo(worker: Worker): nat {
    (if worker.next < worker.end then worker.end - worker.next else 0) + (if worker.result.None? then 1 else 0)
  }

  lemma {:induction false} LeftShrinks(crew: seq<Worker>, k: nat, worker: Worker, n: nat)
    requires k < |crew| && n <= |crew| && LeftTo(worker) < LeftTo(crew[k])
    ensures k < n ==> Left(crew[k := worker], n) < Left(crew, n)
    ensures n <= k ==> Left(crew[k := worker], n) == Left(crew, n)
  {
    if n > 0 { LeftShrinks(crew, k, worker, n - 1); }
  }

  /** A worker's next batch is held by nobody yet, and lies in its own range. */
  lemma BatchExtends(batches: seq<Batch>, perWorker: nat, reached: seq<nat>, initialKeys: nat, k: nat, end: nat)
    requires HeldUpTo(batches, perWorker, reached) && k < |reached|
    requires Boundary(k, perWorker, initialKeys) <= reached[k] < end <= Boundary(k + 1, perWorker, initialKeys)
    ensures HeldUpTo(batches + [Batch(reached[k], end)], perWorker, reached[k := end])
  {
    var b := Batch(reached[k], end);
    forall key: nat
      ensures Holding(batches + [b], key) == Flag(Reached(key, perWorker, reached[k := end]))
    {
      HoldingOne(batches, b, key);
      assert Holding([b], key) == Flag(b.start <= key < b.end) by { assert [b][..0] == []; }
      if b.start <= key < b.end { OwnerOf(key, perWorker, k); }
    }
  }

  /** Nobody has started. */
  lemma NothingReached(perWorker: nat, initialKeys: nat, reached: seq<nat>)
    requires forall k :: 0 <= k < |reached| ==> reached[k] == Boundary(k, perWorker, initialKeys)
    ensures HeldUpTo([], perWorker, reached)
  {
    forall key: nat ensures !Reached(key, perWorker, reached) {
      if perWorker > 0 { OwnerRange(key, perWorker); }
    }
  }

  /** Each key below `n` is in exactly one batch and no other key is in any, whatever the order of commits. */
  ghost predicate HeldOnce(batches: seq<Batch>, n: nat) {
    forall order: seq<Batch>, key: nat :: multiset(order) == multiset(batches) ==>
      Holding(order, key) == if key < n then 1 else 0
  }

  ghost predicate NeverHeldTwice(batches: seq<Batch>) {
    forall order: seq<Batch>, key: nat :: multiset(order) == multiset(batches) ==> Holding(order, key) <= 1
  }

  lemma UpToNeverTwice(batches: seq<Batch>, perWorker: nat, reached: seq<nat>)
    requires HeldUpTo(batches, perWorker, reached)
    ensures NeverHeldTwice(batches)
  {
    forall order: seq<Batch>, key: nat | multiset(order) == multiset(batches) ensures Holding(order, key) <= 1 {
      HoldingIgnoresOrder(order, batches, key);
    }
  }

  /** When every worker has reached its end, the keys below `n` have been reached and no others. */
  lemma AllReached(perWorker: nat, reached: seq<nat>, n: nat, key: nat)
    requires |reached| > 0 && |reached| * perWorker >= n
    requires forall k :: 0 <= k < |reached| ==> reached[k] == Boundary(k + 1, perWorker, n)
    ensures Reached(key, perWorker, reached) <==> key < n
  {
    if perWorker > 0 {
      OwnerRange(key, perWorker);
      var k := Owner(key, perWorker);
      assert k >= |reached| ==> |reached| * perWorker <= k * perWorker;
    }
  }

  lemma UpToHeldOnce(batches: seq<Batch>, perWorker: nat, reached: seq<nat>, n: nat)
    requires HeldUpTo(batches, perWorker, reached) && |reached| > 0 && |reached| * perWorker >= n
    requires forall k :: 0 <= k < |reached| ==> reached[k] == Boundary(k + 1, perWorker, n)
    ensures HeldOnce(batches, n)
  {
    forall order: seq<Batch>, key: nat | multiset(order) == multiset(batches)
      ensures Holding(order, key) == if key < n then 1 else 0
    {
      HoldingIgnoresOrder(order, batches, key);
      AllReached(perWorker, reached, n, key);
    }
  }

  /** The workers at the start, each with its range; those without keys are done. */
  method Crew(count: nat, perWorker: nat, initialKeys: nat) returns (crew: seq<Worker>, ghost reached: seq<nat>)
    ensures |crew| == count && WorkersOk(crew, reached, perWorker, initialKeys)
    ensures forall k :: 0 <= k < count ==>
              reached[k] == Boundary(k, perWorker, initialKeys) && (crew[k].result.None? || Succeeded(crew[k]))
  {
    crew, reached := [], [];
    for worker := 0 to count
      invariant |crew| == worker && WorkersOk(crew, reached, perWorker, initialKeys)
      invariant forall k :: 0 <= k < worker ==>
                  reached[k] == Boundary(k, perWorker, initialKeys) && (crew[k].result.None? || Succeeded(crew[k]))
    {
      BoundaryIncreases(worker, perWorker, initialKeys);
      assert (worker + 1) * perWorker == worker * perWorker + perWorker;
      var start, end := worker * perWorker, Min((worker + 1) * perWorker, initialKeys);
      crew := crew + [if start < end then Worker(start, end, None) else Worker(end, end, Some(Ok(())))];
      reached := reached + [Boundary(worker, perWorker, initialKeys)];
    }
  }

  /** Worker `k` makes one pass of its loop. */
  method Turn(crew: seq<Worker>, k: nat, ops: nat, store: Store, w: Environment, ghost horizon: nat -> nat,
              ghost reached: seq<nat>, ghost perWorker: nat, ghost initialKeys: nat, ghost base: History,
              ghost from: nat)
    returns (crew': seq<Worker>, ghost reached': seq<nat>)
    requires Unbounded(w, horizon) && ops > 0 && k < |crew| && crew[k].result.None?
    requires WorkersOk(crew, reached, perWorker, initialKeys) && HeldUpTo(store.batches, perWorker, reached)
    requires Grown(base, w.log) && from <= w.ticks && Explained(crew, w, base, w.log, from, w.ticks)
    requires Portioned(store.batches, ops, perWorker, initialKeys)
    modifies store, w
    ensures Portioned(store.batches, ops, perWorker, initialKeys)
    ensures Grown(base, w.log) && from <= w.ticks && Explained(crew', w, base, w.log, from, w.ticks)
    ensures |crew'| == |crew| && WorkersOk(crew', reached', perWorker, initialKeys)
    ensures HeldUpTo(store.batches, perWorker, reached') && store.flushes == old(store.flushes)
    ensures Left(crew', |crew'|) < Left(crew, |crew|)
  {
    var worker := crew[k];
    assert WorkerOk(worker, reached[k], Boundary(k, perWorker, initialKeys), Boundary(k + 1, perWorker, initialKeys));
    ghost var before, end := store.batches, Min(worker.next + ops, worker.end);
    BatchExtends(before, perWorker, reached, initialKeys, k, end);
    OwnerOf(worker.next, perWorker, k);
    ghost var log, tick := w.log, w.ticks;
    var next := LoadNext(worker.next, worker.end, ops, store, w, horizon);
    GrownTwice(base, log, w.log);
    ExplainedStays(crew, w, base, log, w.log, from, tick, w.ticks);
    if next.Err? { CauseIsOlder(next.error, w, base, log, w.log, from, tick, w.ticks); }
    reached' := if store.batches == before then reached else reached[k := end];
    var worker' :=
      match next
      case Err(error) => worker.(result := Some(Err(error)))
      case Ok(start) => Worker(start, worker.end, if start < worker.end then None else Some(Ok(())));
    crew' := crew[k := worker'];
    LeftShrinks(crew, k, worker', |crew|);
  }

  /** The first error in the order of the workers. */
  method Joined(crew: seq<Worker>) returns (r: Result<(), LoadError>)
    requires forall k :: 0 <= k < |crew| ==> crew[k].result.Some?
    ensures r.Ok? ==> forall k :: 0 <= k < |crew| ==> Succeeded(crew[k])
    ensures r.Err? ==> exists k :: 0 <= k < |crew| && crew[k].result == Some(r)
                                   && forall j :: 0 <= j < k ==> Succeeded(crew[j])
  {
    for k := 0 to |crew|
      invariant forall j :: 0 <= j < k ==> Succeeded(crew[j])
    {
      if crew[k].result.value.Err? { return crew[k].result.value; }
    }
    return Ok(());
  }

  /**
    Loads every key, with the workers taking turns in any order. On success each
    key below `initialKeys` is in exactly one committed batch and no other key is
    in any, and one flush followed; after a failure no key is in more than one,
    and a flush was made only if every key was loaded. All this holds for every
    order of the committed batches, each of which is as large as the local bytes
    and its worker's range allow. A failure has its cause in a call that failed
    or in a retry that ran out of time; without either the load succeeds.
   */
  method LoadInitialDataset(initialKeys: nat, workers: nat, localBytes: nat, valueLength: nat,
                            store: Store, w: Environment, ghost horizon: nat -> nat)
    returns (r: Result<(), LoadError>, ghost ops: nat)
    requires Unbounded(w, horizon) && store.batches == [] && store.flushes == 0
    modifies store, w
    ensures NeverHeldTwice(store.batches)
    ensures r.Ok? ==> store.flushes == 1 && HeldOnce(store.batches, initialKeys)
    ensures store.flushes <= 1 && (store.flushes == 1 ==> HeldOnce(store.batches, initialKeys))
    ensures r.Err? ==> CausedBy(r.error, w, old(w.log), w.log, old(w.ticks), w.ticks)
    ensures Willing(w) && !RanOut(w, old(w.ticks), w.ticks) ==> r.Ok?
    ensures LargestOps(ops, localBytes, valueLength)
    ensures Portioned(store.batches, ops, Share(initialKeys, WorkerCount(initialKeys, workers)), initialKeys)
  {
    var count := WorkerCount(initialKeys, workers);
    var perWorker := Share(initialKeys, count);
    var batchOps := PreloadBatchOps(localBytes, valueLength);
    ops := batchOps;
    ShareIsLeast(initialKeys, count, perWorker);
    var crew;
    ghost var reached;
    crew, reached := Crew(count, perWorker, initialKeys);
    NothingReached(perWorker, initialKeys, reached);
    while exists k :: 0 <= k < |crew| && crew[k].result.None?
      invariant |crew| == count && WorkersOk(crew, reached, perWorker, initialKeys)
      invariant HeldUpTo(store.batches, perWorker, reached) && store.flushes == 0
      invariant Grown(old(w.log), w.log) && old(w.ticks) <= w.ticks
      invariant Explained(crew, w, old(w.log), w.log, old(w.ticks), w.ticks)
      invariant Portioned(store.batches, batchOps, perWorker, initialKeys)
      decreases Left(crew, |crew|)
    {
      var k :| 0 <= k < |crew| && crew[k].result.None?;
      crew, reached := Turn(crew, k, batchOps, store, w, horizon, reached, perWorker, initialKeys, old(w.log),
                            old(w.ticks));
    }
    UpToNeverTwice(store.batches, perWorker, reached);
    r := Joined(crew);
    if r.Err? { return; }
    forall k | 0 <= k < count ensures reached[k] == Boundary(k + 1, perWorker, initialKeys) {
      assert Succeeded(crew[k]);
    }
    UpToHeldOnce(store.batches, perWorker, reached, initialKeys);
    ghost var calls;
    ghost var log, tick := w.log, w.ticks;
    r, calls := RetryWriteStall(Operation.Flush, store, w, horizon);
    if r.Err? {
      RetryCause(r.error, w, log, calls, tick, w.ticks);
      CauseIsOlder(r.error, w, old(w.log), log, w.log, old(w.ticks), tick, w.ticks);
    }
  }
}
