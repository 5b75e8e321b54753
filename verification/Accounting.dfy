/** The engine's own metadata accounting: one bucket per origin and medium, updated under one lock. */
module Accounting {
  import opened Basics
  import opened Bytes
  import opened CounterTree
  import H = Histogram

  const MAX_U64 := 0xFFFF_FFFF_FFFF_FFFF
  const PAYLOADS := 3
  const SIZE_CLASSES := 64

  datatype Bucket = Bucket(
    origin: Origin,
    medium: Medium,
    counters: map<Counter, nat>,
    issued: seq<nat>,
    returned: seq<nat>,
    checkpoint: seq<nat>,
    publication: seq<nat>,
    sizes: seq<nat>,
    active: nat)

  datatype Snapshot = Snapshot(owner: nat, buckets: seq<Bucket>, overflow: bool, late: nat, incomplete: nat)

  const ORIGINS: seq<Origin> := [
    OrdinaryLocalFlush, CloudFlush, Recovery, Bootstrap, Ddl, CompactionBeforeGc, Administration, Shutdown,
    Unclassified]

  function OriginIndex(o: Origin): (i: nat)
    ensures i < |ORIGINS| && ORIGINS[i] == o
  {
    match o
    case OrdinaryLocalFlush => 0
    case CloudFlush => 1
    case Recovery => 2
    case Bootstrap => 3
    case Ddl => 4
    case CompactionBeforeGc => 5
    case Administration => 6
    case Shutdown => 7
    case Unclassified => 8
  }

  function Slot(o: Origin, m: Medium): (i: nat)
    ensures i < 18
  {
    OriginIndex(o) * 2 + (if m.Persistent? then 0 else 1)
  }

  function SlotMedium(i: nat): Medium {
    if i % 2 == 0 then Persistent else MemoryOnly
  }

  predicate BucketFormed(b: Bucket) {
    && (forall c: Counter :: c in b.counters)
    && |b.issued| == PAYLOADS && |b.returned| == PAYLOADS
    && |b.checkpoint| == H.BUCKETS && |b.publication| == H.BUCKETS && |b.sizes| == SIZE_CLASSES
  }

  /** Eighteen well-sized buckets in the fixed order of origins and media. */
  predicate Canonical(s: Snapshot) {
    && |s.buckets| == 18
    && forall i :: 0 <= i < 18 ==>
         && BucketFormed(s.buckets[i])
         && s.buckets[i].origin == ORIGINS[i / 2] && s.buckets[i].medium == SlotMedium(i)
  }

  /** No persistent bucket has an active operation. */
  predicate PersistentIdle(s: Snapshot) {
    forall i :: 0 <= i < |s.buckets| && s.buckets[i].medium.Persistent? ==> s.buckets[i].active == 0
  }

  // ---------------------------------------------------------------- recording

  /** Saturating addition; the flag reports saturation. */
  function Add(a: nat, b: nat): (nat, bool) {
    if a + b <= MAX_U64 then (a + b, false) else (MAX_U64, true)
  }

  function Amount(input: map<Counter, nat>, c: Counter): nat {
    if c in input then input[c] else 0
  }

  function FoldCounters(counters: map<Counter, nat>, input: map<Counter, nat>): (map<Counter, nat>, bool) {
    (map c | c in counters :: Add(counters[c], Amount(input, c)).0,
     exists c :: c in counters && Add(counters[c], Amount(input, c)).1)
  }

  function FoldArray(a: seq<nat>, b: seq<nat>): (seq<nat>, bool)
    requires |a| == |b|
  {
    (seq(|a|, i requires 0 <= i < |a| => Add(a[i], b[i]).0),
     exists i :: 0 <= i < |a| && Add(a[i], b[i]).1)
  }

  function Bump(counts: seq<nat>, i: nat): (seq<nat>, bool)
    requires i < |counts|
  {
    (counts[i := Add(counts[i], 1).0], Add(counts[i], 1).1)
  }

  /** A sample beyond the last bound still lands in the last bin, but counts as overflow. */
  function RecordLatency(counts: seq<nat>, ns: nat): (seq<nat>, bool)
    requires |counts| == H.BUCKETS
  {
    var (bumped, saturated) := Bump(counts, H.BinOf(ns));
    (bumped, saturated || ns > H.Upper(H.BUCKETS - 1))
  }

  /** The power-of-two size class of a table: the position of its highest bit. */
  function SizeClass(bytes: nat): nat {
    if bytes <= 1 then 0 else 1 + SizeClass(bytes / 2)
  }

  lemma {:induction false} SizeClassFits(bytes: nat, width: nat)
    requires width > 0 && bytes < Pow2(width)
    ensures SizeClass(bytes) < width
  {
    if bytes > 1 { SizeClassFits(bytes / 2, width - 1); }
  }

  lemma SizeClassOfU64(bytes: nat)
    requires bytes <= MAX_U64
    ensures SizeClass(bytes) < SIZE_CLASSES
  {
    Pow2Of32();
    Pow2Byte(32);
    Pow2Byte(40);
    Pow2Byte(48);
    Pow2Byte(56);
    SizeClassFits(bytes, 64);
  }

  /** The class of a table is the binary logarithm of its size. */
  lemma {:induction false} SizeClassIsLogarithm(bytes: nat)
    requires bytes > 0
    ensures Pow2(SizeClass(bytes)) <= bytes < Pow2(SizeClass(bytes) + 1)
  {
    if bytes > 1 { SizeClassIsLogarithm(bytes / 2); }
  }

  datatype Kind = Checkpoint | JournalAppend

  /** What one operation's ledger holds when it is folded. */
  datatype Outcome = Outcome(
    kind: Kind,
    ns: nat,
    succeeded: bool,
    abandoned: bool,
    snapshotDurable: Option<nat>,
    journalBytes: nat,
    completed: bool,
    issued: seq<nat>,
    returned: seq<nat>,
    tainted: bool)

  /** Updates of the shared snapshot, each made under the lock. */
  datatype Event =
    | Begin(origin: Origin, medium: Medium)
    | Fold(origin: Origin, medium: Medium, outcome: Outcome)
    | PublicationAttempt(origin: Origin, medium: Medium, ns: nat, failed: bool)
    | FlushCommitted(origin: Origin, medium: Medium, bytes: nat, ns: nat)
    | CompactionCommitted(medium: Medium, bytes: nat)
    | LateWrite
    | MissingStart

  /** Work the accounting noticed only after the fact; it belongs to no bucket. */
  predicate Escape(e: Event) {
    e.LateWrite? || e.MissingStart?
  }

  predicate EventOk(e: Event) {
    match e
    case Fold(_, _, o) =>
      && |o.issued| == PAYLOADS && |o.returned| == PAYLOADS
      && o.ns <= MAX_U64 && (o.abandoned ==> !o.succeeded)
    case FlushCommitted(_, _, bytes, ns) => bytes <= MAX_U64 && ns <= MAX_U64
    case _ => true
  }

  function EventSlot(e: Event): (i: nat)
    ensures i < 18
  {
    match e
    case CompactionCommitted(m, _) => Slot(CompactionBeforeGc, m)
    case LateWrite => 0
    case MissingStart => 0
    case _ => Slot(e.origin, e.medium)
  }

  /** Which bucket: one per origin and medium. */
  datatype Place = Place(origin: Origin, medium: Medium)

  function PlaceOf(b: Bucket): Place {
    Place(b.origin, b.medium)
  }

  function PlaceAt(i: nat): Place
    requires i < 18
  {
    Place(ORIGINS[i / 2], SlotMedium(i))
  }

  /** The event is accounted at this place: its own origin and medium, or the compactions' origin. */
  predicate Belongs(e: Event, at: Place) {
    match e
    case Begin(o, m) => at == Place(o, m)
    case Fold(o, m, _) => at == Place(o, m)
    case PublicationAttempt(o, m, _, _) => at == Place(o, m)
    case FlushCommitted(o, m, _, _) => at == Place(o, m)
    case CompactionCommitted(m, _) => at == Place(CompactionBeforeGc, m)
    case LateWrite => false
    case MissingStart => false
  }

  /** The bucket an event updates is the one of its own origin and medium, and no other bucket is. */
  lemma OwnBucket(s: Snapshot, e: Event, i: nat)
    requires Canonical(s) && i < 18
    ensures Belongs(e, PlaceOf(s.buckets[i])) <==> i == EventSlot(e) && !Escape(e)
  {
    SlotIsOwn(i, ORIGINS[i / 2], SlotMedium(i));
    if !Escape(e) {
      var o, m := if e.CompactionCommitted? then CompactionBeforeGc else e.origin, e.medium;
      SlotIsOwn(Slot(o, m), o, m);
      assert EventSlot(e) == Slot(o, m);
    }
  }

  lemma SlotIsOwn(i: nat, o: Origin, m: Medium)
    requires i < 18
    ensures i == Slot(o, m) <==> ORIGINS[i / 2] == o && SlotMedium(i) == m
  {
    OriginsAreDistinct(i / 2, OriginIndex(o));
  }

  lemma OriginsAreDistinct(j: nat, k: nat)
    requires j < 9 && k < 9
    ensures ORIGINS[j] == ORIGINS[k] <==> j == k
  {
  }

  function Flag(b: bool): nat {
    if b then 1 else 0
  }

  function LedgerCounters(o: Outcome): map<Counter, nat> {
    map[OperationAttempts := 1,
        OperationFailures := Flag(!o.succeeded),
        AbandonedOperations := Flag(o.abandoned),
        SnapshotDurableCount := Flag(o.snapshotDurable.Some?),
        SnapshotDurableBytes := if o.snapshotDurable.Some? then o.snapshotDurable.value else 0,
        JournalDurableBytes := o.journalBytes,
        CheckpointCompleteCount := Flag(o.completed),
        CheckpointAttempts := Flag(o.kind.Checkpoint?),
        CheckpointElapsedNs := if o.kind.Checkpoint? then o.ns else 0,
        JournalAppendAttempts := Flag(o.kind.JournalAppend?),
        JournalElapsedNs := if o.kind.JournalAppend? then o.ns else 0]
  }

  /** One bucket after one event, and whether anything saturated or was out of range. */
  function Updated(b: Bucket, e: Event): (Bucket, bool)
    requires BucketFormed(b) && EventOk(e)
  {
    match e
    case Begin(_, _) => (b.(active := Add(b.active, 1).0), Add(b.active, 1).1)
    case Fold(_, _, o) =>
      var (counters, c) := FoldCounters(b.counters, LedgerCounters(o));
      var (issued, i) := FoldArray(b.issued, o.issued);
      var (returned, r) := FoldArray(b.returned, o.returned);
      var (checkpoint, l) := if o.kind.Checkpoint? then RecordLatency(b.checkpoint, o.ns) else (b.checkpoint, false);
      (b.(active := if b.active > 0 then b.active - 1 else 0,
          counters := counters, issued := issued, returned := returned, checkpoint := checkpoint),
       o.tainted || b.active == 0 || c || i || r || l)
    case PublicationAttempt(_, _, ns, failed) =>
      var (counters, c) := FoldCounters(b.counters, map[
        PublicationAttempts := 1, PublicationFailures := Flag(failed), PublicationAttemptElapsedNs := ns]);
      (b.(counters := counters), c)
    case FlushCommitted(_, _, bytes, ns) =>
      SizeClassOfU64(bytes);
      var (counters, c) := FoldCounters(b.counters, map[
        FlushCommittedCount := 1, FlushCommittedSstBytes := bytes, FlushFullPublicationElapsedNs := ns]);
      var (publication, l) := RecordLatency(b.publication, ns);
      var (sizes, z) := Bump(b.sizes, SizeClass(bytes));
      (b.(counters := counters, publication := publication, sizes := sizes), bytes == 0 || c || l || z)
    case CompactionCommitted(_, bytes) =>
      var (counters, c) :=
        FoldCounters(b.counters, map[CompactionCommittedCount := 1, CompactionCommittedSstBytes := bytes]);
      (b.(counters := counters), c)
    case LateWrite => (b, false)
    case MissingStart => (b, false)
  }

  function Step(s: Snapshot, e: Event): Snapshot
    requires Canonical(s) && EventOk(e)
  {
    var i := EventSlot(e);
    var (b, overflow) := Updated(s.buckets[i], e);
    var (incomplete, missed) := if e.MissingStart? then Add(s.incomplete, 1) else (s.incomplete, false);
    s.(buckets := s.buckets[i := b], overflow := s.overflow || overflow || missed,
       late := if e.LateWrite? then Add(s.late, 1).0 else s.late, incomplete := incomplete)
  }

  function Zero(c: Counter): nat {
    0
  }

  function EmptyBucket(i: nat): Bucket
    requires i < 18
  {
    Bucket(ORIGINS[i / 2], SlotMedium(i), map c: Counter | true :: Zero(c), [0, 0, 0], [0, 0, 0],
           H.Binned([]), H.Binned([]), seq(SIZE_CLASSES, _ => 0), 0)
  }

  function NewOwner(id: nat): Snapshot {
    Snapshot(id, seq(18, i requires 0 <= i < 18 => EmptyBucket(i)), id == 0, 0, 0)
  }

  /** The snapshot after a run of events, in the order the lock was taken. */
  ghost function Replay(id: nat, events: seq<Event>): (s: Snapshot)
    requires forall i :: 0 <= i < |events| ==> EventOk(events[i])
    ensures Canonical(s)
  {
    if events == [] then NewOwner(id)
    else
      StepKeepsCanonical(Replay(id, events[..|events| - 1]), events[|events| - 1]);
      Step(Replay(id, events[..|events| - 1]), events[|events| - 1])
  }

  lemma UpdatedIsFormed(b: Bucket, e: Event)
    requires BucketFormed(b) && EventOk(e)
    ensures
      var b' := Updated(b, e).0;
      BucketFormed(b') && b'.origin == b.origin && b'.medium == b.medium
  {
    if e.FlushCommitted? { SizeClassOfU64(e.bytes); }
  }

  lemma StepKeepsCanonical(s: Snapshot, e: Event)
    requires Canonical(s) && EventOk(e)
    ensures Canonical(Step(s, e))
  {
    UpdatedIsFormed(s.buckets[EventSlot(e)], e);
  }

  // ---------------------------------------------------------------- conservation

  /** Every attempt and every committed flush is in its histograms exactly once. */
  predicate Covered(b: Bucket)
    requires BucketFormed(b)
  {
    && H.Sum(b.checkpoint) == b.counters[CheckpointAttempts]
    && H.Sum(b.publication) == b.counters[FlushCommittedCount]
    && H.Sum(b.sizes) == b.counters[FlushCommittedCount]
  }

  /** Operations split by kind, and the outcome counters never exceed what they count. */
  predicate Consistent(b: Bucket)
    requires BucketFormed(b)
  {
    && b.counters[OperationAttempts] == b.counters[CheckpointAttempts] + b.counters[JournalAppendAttempts]
    && b.counters[AbandonedOperations] <= b.counters[OperationFailures] <= b.counters[OperationAttempts]
    && b.counters[SnapshotDurableCount] <= b.counters[OperationAttempts]
    && b.counters[CheckpointCompleteCount] <= b.counters[OperationAttempts]
  }

  lemma BumpSum(counts: seq<nat>, i: nat)
    requires i < |counts| && !Bump(counts, i).1
    ensures H.Sum(Bump(counts, i).0) == H.Sum(counts) + 1
  {
    H.PrefixBump(counts, i, |counts|);
  }

  lemma FoldIsExact(counters: map<Counter, nat>, input: map<Counter, nat>, c: Counter)
    requires c in counters && !FoldCounters(counters, input).1
    ensures FoldCounters(counters, input).0[c] == counters[c] + Amount(input, c)
  {
  }

  predicate Lawful(b: Bucket)
    requires BucketFormed(b)
  {
    Covered(b) && Consistent(b)
  }

  lemma FoldKeepsCoverage(b: Bucket, e: Event)
    requires e.Fold? && BucketFormed(b) && EventOk(e) && Covered(b) && !Updated(b, e).1
    requires BucketFormed(Updated(b, e).0)
    ensures Covered(Updated(b, e).0)
  {
    var input := LedgerCounters(e.outcome);
    if e.outcome.kind.Checkpoint? { BumpSum(b.checkpoint, H.BinOf(e.outcome.ns)); }
    assert Updated(b, e).0.counters == FoldCounters(b.counters, input).0;
    FoldIsExact(b.counters, input, CheckpointAttempts);
    FoldIsExact(b.counters, input, FlushCommittedCount);
  }

  lemma FoldKeepsConsistency(b: Bucket, e: Event)
    requires e.Fold? && BucketFormed(b) && EventOk(e) && Consistent(b) && !Updated(b, e).1
    requires BucketFormed(Updated(b, e).0)
    ensures Consistent(Updated(b, e).0)
  {
    var input := LedgerCounters(e.outcome);
    assert Updated(b, e).0.counters == FoldCounters(b.counters, input).0;
    FoldIsExact(b.counters, input, OperationAttempts);
    FoldIsExact(b.counters, input, OperationFailures);
    FoldIsExact(b.counters, input, AbandonedOperations);
    FoldIsExact(b.counters, input, CheckpointAttempts);
    FoldIsExact(b.counters, input, JournalAppendAttempts);
    FoldIsExact(b.counters, input, SnapshotDurableCount);
    FoldIsExact(b.counters, input, CheckpointCompleteCount);
  }

  lemma FlushKeepsCoverage(b: Bucket, e: Event)
    requires e.FlushCommitted? && BucketFormed(b) && EventOk(e) && Covered(b) && !Updated(b, e).1
    requires BucketFormed(Updated(b, e).0)
    ensures Covered(Updated(b, e).0)
  {
    SizeClassOfU64(e.bytes);
    BumpSum(b.publication, H.BinOf(e.ns));
    BumpSum(b.sizes, SizeClass(e.bytes));
    var input := map[FlushCommittedCount := 1, FlushCommittedSstBytes := e.bytes,
                     FlushFullPublicationElapsedNs := e.ns];
    assert Updated(b, e).0.counters == FoldCounters(b.counters, input).0;
    FoldIsExact(b.counters, input, FlushCommittedCount);
    FoldIsExact(b.counters, input, CheckpointAttempts);
  }

  /** What only folding an operation changes. */
  predicate OperationCounter(c: Counter) {
    c.OperationAttempts? || c.OperationFailures? || c.AbandonedOperations? || c.CheckpointAttempts?
    || c.JournalAppendAttempts? || c.SnapshotDurableCount? || c.CheckpointCompleteCount?
  }

  lemma FoldKeeps(counters: map<Counter, nat>, input: map<Counter, nat>, c: Counter)
    requires c in counters && c !in input && !FoldCounters(counters, input).1
    ensures FoldCounters(counters, input).0[c] == counters[c]
  {
    FoldIsExact(counters, input, c);
  }

  /** Events other than folding an operation leave its counters alone. */
  lemma OtherEventsKeepOperations(b: Bucket, e: Event, c: Counter)
    requires !e.Fold? && BucketFormed(b) && EventOk(e) && !Updated(b, e).1 && OperationCounter(c)
    requires BucketFormed(Updated(b, e).0)
    ensures Updated(b, e).0.counters[c] == b.counters[c]
  {
    match e
    case PublicationAttempt(_, _, ns, failed) =>
      FoldKeeps(b.counters, map[PublicationAttempts := 1, PublicationFailures := Flag(failed),
                                PublicationAttemptElapsedNs := ns], c);
    case FlushCommitted(_, _, bytes, ns) =>
      FoldKeeps(b.counters, map[FlushCommittedCount := 1, FlushCommittedSstBytes := bytes,
                                FlushFullPublicationElapsedNs := ns], c);
    case CompactionCommitted(_, bytes) =>
      FoldKeeps(b.counters, map[CompactionCommittedCount := 1, CompactionCommittedSstBytes := bytes], c);
    case _ =>
  }

  lemma OtherEventsKeepCoverage(b: Bucket, e: Event)
    requires !e.Fold? && !e.FlushCommitted? && BucketFormed(b) && EventOk(e) && Covered(b) && !Updated(b, e).1
    requires BucketFormed(Updated(b, e).0)
    ensures Covered(Updated(b, e).0)
  {
    OtherEventsKeepOperations(b, e, CheckpointAttempts);
  }

  lemma UpdatedKeepsLaws(b: Bucket, e: Event)
    requires BucketFormed(b) && EventOk(e) && Lawful(b) && !Updated(b, e).1
    ensures BucketFormed(Updated(b, e).0) && Lawful(Updated(b, e).0)
  {
    UpdatedIsFormed(b, e);
    if e.Fold? {
      FoldKeepsCoverage(b, e);
      FoldKeepsConsistency(b, e);
    } else {
      if e.FlushCommitted? { FlushKeepsCoverage(b, e); } else { OtherEventsKeepCoverage(b, e); }
      OtherEventsKeepOperations(b, e, OperationAttempts);
      OtherEventsKeepOperations(b, e, OperationFailures);
      OtherEventsKeepOperations(b, e, AbandonedOperations);
      OtherEventsKeepOperations(b, e, CheckpointAttempts);
      OtherEventsKeepOperations(b, e, JournalAppendAttempts);
      OtherEventsKeepOperations(b, e, SnapshotDurableCount);
      OtherEventsKeepOperations(b, e, CheckpointCompleteCount);
    }
  }

  lemma EmptyLaws(i: nat)
    requires i < 18
    ensures Lawful(EmptyBucket(i))
  {
    var b := EmptyBucket(i);
    H.PrefixZero(b.checkpoint, H.BUCKETS);
    H.PrefixZero(b.sizes, SIZE_CLASSES);
  }

  /** Conservation: after any run whose overflow flag is clear, the accounting laws hold in every bucket. */
  lemma {:induction false} ReplayKeepsLaws(id: nat, events: seq<Event>, i: nat)
    requires forall k :: 0 <= k < |events| ==> EventOk(events[k])
    requires i < 18 && !Replay(id, events).overflow
    ensures Lawful(Replay(id, events).buckets[i])
  {
    if events == [] {
      EmptyLaws(i);
    } else {
      var n := |events| - 1;
      var s := Replay(id, events[..n]);
      ReplayKeepsLaws(id, events[..n], i);
      if i == EventSlot(events[n]) { UpdatedKeepsLaws(s.buckets[i], events[n]); }
    }
  }

  // ---------------------------------------------------------------- runs without failures

  /** Succeeded and reached exactly the durability its kind calls for. */
  predicate CleanOutcome(o: Outcome) {
    && o.succeeded && !o.abandoned
    && o.snapshotDurable.Some? == o.completed == o.kind.Checkpoint?
  }

  predicate CleanEvent(e: Event) {
    e.Fold? ==> CleanOutcome(e.outcome)
  }

  predicate NothingFailed(b: Bucket)
    requires BucketFormed(b)
  {
    && b.counters[OperationFailures] == b.counters[AbandonedOperations] == 0
    && b.counters[SnapshotDurableCount] == b.counters[CheckpointCompleteCount] == b.counters[CheckpointAttempts]
  }

  lemma CleanEventKeepsNothingFailed(b: Bucket, e: Event)
    requires BucketFormed(b) && EventOk(e) && CleanEvent(e) && NothingFailed(b) && !Updated(b, e).1
    ensures BucketFormed(Updated(b, e).0) && NothingFailed(Updated(b, e).0)
  {
    UpdatedIsFormed(b, e);
    if e.Fold? {
      var input := LedgerCounters(e.outcome);
      assert Updated(b, e).0.counters == FoldCounters(b.counters, input).0;
      FoldIsExact(b.counters, input, OperationFailures);
      FoldIsExact(b.counters, input, AbandonedOperations);
      FoldIsExact(b.counters, input, CheckpointAttempts);
      FoldIsExact(b.counters, input, SnapshotDurableCount);
      FoldIsExact(b.counters, input, CheckpointCompleteCount);
    } else {
      OtherEventsKeepOperations(b, e, OperationFailures);
      OtherEventsKeepOperations(b, e, AbandonedOperations);
      OtherEventsKeepOperations(b, e, CheckpointAttempts);
      OtherEventsKeepOperations(b, e, SnapshotDurableCount);
      OtherEventsKeepOperations(b, e, CheckpointCompleteCount);
    }
  }

  lemma {:induction false} CleanReplay(id: nat, events: seq<Event>, i: nat)
    requires forall k :: 0 <= k < |events| ==> EventOk(events[k]) && CleanEvent(events[k])
    requires i < 18 && !Replay(id, events).overflow
    ensures NothingFailed(Replay(id, events).buckets[i])
  {
    if events != [] {
      var n := |events| - 1;
      var s := Replay(id, events[..n]);
      CleanReplay(id, events[..n], i);
      if i == EventSlot(events[n]) { CleanEventKeepsNothingFailed(s.buckets[i], events[n]); }
    }
  }

  // ---------------------------------------------------------------- windows

  function CounterDifference(after: map<Counter, nat>, before: map<Counter, nat>): Option<map<Counter, nat>> {
    if (forall c: Counter :: c in after && c in before && before[c] <= after[c])
    then Some(map c | c in after :: after[c] - before[c])
    else None
  }

  function BucketDifference(after: Bucket, before: Bucket): Option<Bucket> {
    var counters := CounterDifference(after.counters, before.counters);
    var issued, returned := H.Difference(after.issued, before.issued), H.Difference(after.returned, before.returned);
    var checkpoint := H.Difference(after.checkpoint, before.checkpoint);
    var publication := H.Difference(after.publication, before.publication);
    var sizes := H.Difference(after.sizes, before.sizes);
    if counters.None? || issued.None? || returned.None? || checkpoint.None? || publication.None? || sizes.None?
       || after.origin != before.origin || after.medium != before.medium
    then None
    else Some(after.(counters := counters.value, issued := issued.value, returned := returned.value,
                     checkpoint := checkpoint.value, publication := publication.value, sizes := sizes.value))
  }

  /** The engine's own window: counters and bins are subtracted, gauges are kept. */
  function Delta(after: Snapshot, before: Snapshot): Option<Snapshot>
    requires Canonical(after) && Canonical(before)
  {
    if after.owner != before.owner || after.overflow || before.overflow || after.late > 0 || after.incomplete > 0
    then None
    else if forall i :: 0 <= i < 18 ==> BucketDifference(after.buckets[i], before.buckets[i]).Some? then
      Some(after.(buckets :=
                  seq(18, i requires 0 <= i < 18 && BucketDifference(after.buckets[i], before.buckets[i]).Some? =>
                                   BucketDifference(after.buckets[i], before.buckets[i]).value)))
    else None
  }

  predicate NoneShrank(after: seq<nat>, before: seq<nat>) {
    |after| == |before| && forall k :: 0 <= k < |after| ==> before[k] <= after[k]
  }

  /** No measured field of the bucket decreased. */
  predicate Grew(after: Bucket, before: Bucket)
    requires BucketFormed(after) && BucketFormed(before)
  {
    && (forall c: Counter :: before.counters[c] <= after.counters[c])
    && NoneShrank(after.issued, before.issued) && NoneShrank(after.returned, before.returned)
    && NoneShrank(after.checkpoint, before.checkpoint) && NoneShrank(after.publication, before.publication)
    && NoneShrank(after.sizes, before.sizes)
  }

  predicate AddsTo(sum: seq<nat>, a: seq<nat>, b: seq<nat>) {
    |sum| == |a| == |b| && forall k :: 0 <= k < |sum| ==> sum[k] == a[k] + b[k]
  }

  /** `after` is `before` with `d` added to every measured field, and `d` keeps its place and its gauge. */
  predicate Continues(after: Bucket, before: Bucket, d: Bucket)
    requires BucketFormed(after) && BucketFormed(before)
  {
    && BucketFormed(d) && PlaceOf(d) == PlaceOf(after) && d.active == after.active
    && (forall c: Counter :: after.counters[c] == before.counters[c] + d.counters[c])
    && AddsTo(after.issued, before.issued, d.issued) && AddsTo(after.returned, before.returned, d.returned)
    && AddsTo(after.checkpoint, before.checkpoint, d.checkpoint)
    && AddsTo(after.publication, before.publication, d.publication) && AddsTo(after.sizes, before.sizes, d.sizes)
  }

  lemma BucketDifferenceExactly(after: Bucket, before: Bucket)
    requires BucketFormed(after) && BucketFormed(before) && PlaceOf(after) == PlaceOf(before)
    ensures BucketDifference(after, before).Some? <==> Grew(after, before)
    ensures BucketDifference(after, before).Some? ==> Continues(after, before, BucketDifference(after, before).value)
  {
  }

  /**
    A window exists exactly between two snapshots of one owner, the later one
    untainted and the earlier one without overflow, in which nothing measured
    decreased; added to the earlier snapshot it gives the later one.
   */
  lemma DeltaExactly(after: Snapshot, before: Snapshot)
    requires Canonical(after) && Canonical(before)
    ensures Delta(after, before).Some? <==>
            && after.owner == before.owner && !after.overflow && !before.overflow
            && after.late == 0 && after.incomplete == 0
            && forall i :: 0 <= i < 18 ==> Grew(after.buckets[i], before.buckets[i])
    ensures Delta(after, before).Some? ==>
              var d := Delta(after, before).value;
              && d.owner == after.owner && |d.buckets| == 18 && !d.overflow && d.late == 0 && d.incomplete == 0
              && forall i :: 0 <= i < 18 ==> Continues(after.buckets[i], before.buckets[i], d.buckets[i])
  {
    forall i | 0 <= i < 18
      ensures BucketDifference(after.buckets[i], before.buckets[i]).Some? <==>
              Grew(after.buckets[i], before.buckets[i])
      ensures BucketDifference(after.buckets[i], before.buckets[i]).Some? ==>
                Continues(after.buckets[i], before.buckets[i],
                          BucketDifference(after.buckets[i], before.buckets[i]).value)
    {
      BucketDifferenceExactly(after.buckets[i], before.buckets[i]);
    }
  }

  lemma {:induction false} SumOfDifference(after: seq<nat>, before: seq<nat>, k: nat)
    requires H.Difference(after, before).Some? && k <= |after|
    ensures H.PrefixSum(H.Difference(after, before).value, k) == H.PrefixSum(after, k) - H.PrefixSum(before, k)
  {
    if k > 0 { SumOfDifference(after, before, k - 1); }
  }

  /** Coverage is linear: if both endpoints are covered, so is the window between them. */
  lemma WindowIsCovered(after: Bucket, before: Bucket)
    requires BucketFormed(after) && BucketFormed(before) && Covered(after) && Covered(before)
    requires BucketDifference(after, before).Some?
    ensures BucketFormed(BucketDifference(after, before).value) && Covered(BucketDifference(after, before).value)
  {
    SumOfDifference(after.checkpoint, before.checkpoint, H.BUCKETS);
    SumOfDifference(after.publication, before.publication, H.BUCKETS);
    SumOfDifference(after.sizes, before.sizes, SIZE_CLASSES);
  }

  lemma UpdatedGrows(b: Bucket, e: Event)
    requires BucketFormed(b) && EventOk(e) && !Updated(b, e).1
    ensures BucketDifference(Updated(b, e).0, b).Some?
  {
    UpdatedIsFormed(b, e);
    if e.FlushCommitted? { SizeClassOfU64(e.bytes); }
  }

  lemma DifferenceChains(c: Bucket, b: Bucket, a: Bucket)
    requires BucketDifference(c, b).Some? && BucketDifference(b, a).Some?
    ensures BucketDifference(c, a).Some?
  {
    assert forall k: Counter :: a.counters[k] <= b.counters[k] <= c.counters[k];
  }

  lemma DifferenceWithItself(b: Bucket)
    requires BucketFormed(b)
    ensures BucketDifference(b, b).Some?
  {
  }

  lemma StepGrows(s: Snapshot, e: Event, i: nat)
    requires Canonical(s) && EventOk(e) && i < 18 && !Step(s, e).overflow
    ensures !s.overflow && BucketDifference(Step(s, e).buckets[i], s.buckets[i]).Some?
  {
    if i == EventSlot(e) { UpdatedGrows(s.buckets[i], e); } else { DifferenceWithItself(s.buckets[i]); }
  }

  lemma LastStepGrows(id: nat, events: seq<Event>, i: nat)
    requires forall j :: 0 <= j < |events| ==> EventOk(events[j])
    requires events != [] && i < 18 && !Replay(id, events).overflow
    ensures !Replay(id, events[..|events| - 1]).overflow
    ensures BucketDifference(Replay(id, events).buckets[i], Replay(id, events[..|events| - 1]).buckets[i]).Some?
  {
    StepGrows(Replay(id, events[..|events| - 1]), events[|events| - 1], i);
  }

  /** A later snapshot of one run never has a smaller counter, so every window of it exists. */
  lemma {:induction false} LaterDominates(id: nat, events: seq<Event>, earlier: seq<Event>, i: nat)
    requires forall j :: 0 <= j < |events| ==> EventOk(events[j])
    requires earlier <= events && i < 18 && !Replay(id, events).overflow
    ensures forall j :: 0 <= j < |earlier| ==> EventOk(earlier[j])
    ensures !Replay(id, earlier).overflow
    ensures BucketDifference(Replay(id, events).buckets[i], Replay(id, earlier).buckets[i]).Some?
    decreases |events|
  {
    if |earlier| == |events| {
      assert earlier == events;
      DifferenceWithItself(Replay(id, events).buckets[i]);
    } else {
      var init := events[..|events| - 1];
      LastStepGrows(id, events, i);
      LaterDominates(id, init, earlier, i);
      DifferenceChains(Replay(id, events).buckets[i], Replay(id, init).buckets[i], Replay(id, earlier).buckets[i]);
    }
  }
}
