/** What a snapshot, and a window between two snapshots, say about the events of the run. */
module RunTotals {
  import opened Basics
  import opened CounterTree
  import opened Accounting
  import opened AccountingJson
  import opened CheckpointGate
  import A = GateAgreement
  import H = Histogram

  // ---------------------------------------------------------------- counters are totals

  /** What one event adds to one counter of its bucket, counter by counter. */
  function Contribution(e: Event, c: Counter): nat {
    match c
    case OperationAttempts => Flag(e.Fold?)
    case OperationFailures => Flag(e.Fold? && !e.outcome.succeeded)
    case AbandonedOperations => Flag(e.Fold? && e.outcome.abandoned)
    case SnapshotDurableBytes =>
      if e.Fold? && e.outcome.snapshotDurable.Some? then e.outcome.snapshotDurable.value else 0
    case JournalDurableBytes => if e.Fold? then e.outcome.journalBytes else 0
    case SnapshotDurableCount => Flag(e.Fold? && e.outcome.snapshotDurable.Some?)
    case CheckpointCompleteCount => Flag(e.Fold? && e.outcome.completed)
    case CheckpointAttempts => Flag(IsCheckpoint(e))
    case CheckpointElapsedNs => if IsCheckpoint(e) then e.outcome.ns else 0
    case JournalAppendAttempts => Flag(e.Fold? && e.outcome.kind.JournalAppend?)
    case JournalElapsedNs => if e.Fold? && e.outcome.kind.JournalAppend? then e.outcome.ns else 0
    case PublicationAttempts => Flag(e.PublicationAttempt?)
    case PublicationFailures => Flag(e.PublicationAttempt? && e.failed)
    case PublicationAttemptElapsedNs => if e.PublicationAttempt? then e.ns else 0
    case FlushCommittedCount => Flag(e.FlushCommitted?)
    case FlushCommittedSstBytes => if e.FlushCommitted? then e.bytes else 0
    case FlushFullPublicationElapsedNs => if e.FlushCommitted? then e.ns else 0
    case CompactionCommittedCount => Flag(e.CompactionCommitted?)
    case CompactionCommittedSstBytes => if e.CompactionCommitted? then e.bytes else 0
  }

  predicate IsCheckpoint(e: Event) {
    e.Fold? && e.outcome.kind.Checkpoint?
  }

  /** What one event adds to a counter of one bucket. */
  function Gain(e: Event, at: Place, c: Counter): nat {
    if Belongs(e, at) then Contribution(e, c) else 0
  }

  function Total(events: seq<Event>, at: Place, c: Counter): nat {
    if events == [] then 0 else Total(events[..|events| - 1], at, c) + Gain(events[|events| - 1], at, c)
  }

  lemma FoldAdds(b: Bucket, e: Event, c: Counter)
    requires e.Fold? && BucketFormed(b) && EventOk(e) && !Updated(b, e).1
    ensures c in Updated(b, e).0.counters && Updated(b, e).0.counters[c] == b.counters[c] + Contribution(e, c)
  {
    LedgerAmount(e, c);
    FoldIsExact(b.counters, LedgerCounters(e.outcome), c);
  }

  lemma LedgerAmount(e: Event, c: Counter)
    requires e.Fold?
    ensures Amount(LedgerCounters(e.outcome), c) == Contribution(e, c)
  {
  }

  lemma OthersAdd(b: Bucket, e: Event, c: Counter)
    requires !e.Fold? && BucketFormed(b) && EventOk(e) && !Updated(b, e).1
    ensures c in Updated(b, e).0.counters && Updated(b, e).0.counters[c] == b.counters[c] + Contribution(e, c)
  {
    match e
    case Begin(_, _) =>
    case LateWrite =>
    case MissingStart =>
    case PublicationAttempt(_, _, _, _) => PublicationAdds(b, e, c);
    case FlushCommitted(_, _, _, _) => FlushAdds(b, e, c);
    case CompactionCommitted(_, _) => CompactionAdds(b, e, c);
  }

  lemma CompactionAdds(b: Bucket, e: Event, c: Counter)
    requires e.CompactionCommitted? && BucketFormed(b) && !Updated(b, e).1
    ensures c in Updated(b, e).0.counters && Updated(b, e).0.counters[c] == b.counters[c] + Contribution(e, c)
  {
    FoldIsExact(b.counters, map[CompactionCommittedCount := 1, CompactionCommittedSstBytes := e.bytes], c);
  }

  lemma PublicationAdds(b: Bucket, e: Event, c: Counter)
    requires e.PublicationAttempt? && BucketFormed(b) && !Updated(b, e).1
    ensures c in Updated(b, e).0.counters && Updated(b, e).0.counters[c] == b.counters[c] + Contribution(e, c)
  {
    FoldIsExact(b.counters,
                map[PublicationAttempts := 1, PublicationFailures := Flag(e.failed),
                    PublicationAttemptElapsedNs := e.ns], c);
  }

  lemma FlushAdds(b: Bucket, e: Event, c: Counter)
    requires e.FlushCommitted? && BucketFormed(b) && EventOk(e) && !Updated(b, e).1
    ensures c in Updated(b, e).0.counters && Updated(b, e).0.counters[c] == b.counters[c] + Contribution(e, c)
  {
    FoldIsExact(b.counters,
                map[FlushCommittedCount := 1, FlushCommittedSstBytes := e.bytes, FlushFullPublicationElapsedNs := e.ns],
                c);
  }

  lemma StepAdds(s: Snapshot, e: Event, i: nat, c: Counter)
    requires Canonical(s) && EventOk(e) && i < 18 && !Step(s, e).overflow
    ensures Canonical(Step(s, e)) && !s.overflow
    ensures Step(s, e).buckets[i].counters[c] == s.buckets[i].counters[c] + Gain(e, PlaceAt(i), c)
  {
    StepKeepsCanonical(s, e);
    OwnBucket(s, e, i);
    if EventSlot(e) == i {
      if e.Fold? { FoldAdds(s.buckets[i], e, c); } else { OthersAdd(s.buckets[i], e, c); }
    }
  }

  /**
    Conservation over a whole run: unless something overflowed, every counter
    is the total of what its events added.
   */
  lemma {:induction false} CountersAreTotals(id: nat, events: seq<Event>, i: nat, c: Counter)
    requires forall k :: 0 <= k < |events| ==> EventOk(events[k])
    requires i < 18 && !Replay(id, events).overflow
    ensures Replay(id, events).buckets[i].counters[c] == Total(events, PlaceOf(Replay(id, events).buckets[i]), c)
  {
    if events != [] {
      var n := |events| - 1;
      StepAdds(Replay(id, events[..n]), events[n], i, c);
      CountersAreTotals(id, events[..n], i, c);
    }
  }

  lemma {:induction false} TotalsAdd(earlier: seq<Event>, window: seq<Event>, at: Place, c: Counter)
    ensures Total(earlier + window, at, c) == Total(earlier, at, c) + Total(window, at, c)
  {
    if window == [] {
      assert earlier + window == earlier;
    } else {
      var n := |window| - 1;
      TotalsAdd(earlier, window[..n], at, c);
      assert (earlier + window)[..|earlier| + n] == earlier + window[..n];
    }
  }

  /** The bytes of each payload that a bucket's operations issued, and those whose writes returned. */
  datatype Direction = Outward | Back

  function Payloads(b: Bucket, d: Direction): seq<nat> {
    if d.Outward? then b.issued else b.returned
  }

  function Moved(events: seq<Event>, at: Place, d: Direction, p: nat): nat {
    if events == [] then 0 else Moved(events[..|events| - 1], at, d, p) + MovedBy(events[|events| - 1], at, d, p)
  }

  function MovedBy(e: Event, at: Place, d: Direction, p: nat): nat {
    if !Belongs(e, at) || !e.Fold? then 0
    else
      var moved := if d.Outward? then e.outcome.issued else e.outcome.returned;
      if p < |moved| then moved[p] else 0
  }

  /** Unless something overflowed, each payload's bytes add up over the run. */
  lemma {:induction false} PayloadsAreTotals(id: nat, events: seq<Event>, i: nat, d: Direction, p: nat)
    requires forall k :: 0 <= k < |events| ==> EventOk(events[k])
    requires i < 18 && p < PAYLOADS && !Replay(id, events).overflow
    ensures Payloads(Replay(id, events).buckets[i], d)[p] ==
            Moved(events, PlaceOf(Replay(id, events).buckets[i]), d, p)
  {
    if events != [] {
      var n := |events| - 1;
      StepMoves(Replay(id, events[..n]), events[n], i, d, p);
      PayloadsAreTotals(id, events[..n], i, d, p);
    }
  }

  lemma StepMoves(s: Snapshot, e: Event, i: nat, d: Direction, p: nat)
    requires Canonical(s) && EventOk(e) && i < 18 && p < PAYLOADS && !Step(s, e).overflow
    ensures Canonical(Step(s, e)) && !s.overflow
    ensures Payloads(Step(s, e).buckets[i], d)[p] == Payloads(s.buckets[i], d)[p] + MovedBy(e, PlaceAt(i), d, p)
  {
    StepKeepsCanonical(s, e);
    OwnBucket(s, e, i);
    if EventSlot(e) == i && e.Fold? {
      assert !Add(s.buckets[i].issued[p], e.outcome.issued[p]).1;
      assert !Add(s.buckets[i].returned[p], e.outcome.returned[p]).1;
    }
  }

  lemma {:induction false} MovedAdds(earlier: seq<Event>, window: seq<Event>, at: Place, d: Direction, p: nat)
    ensures Moved(earlier + window, at, d, p) == Moved(earlier, at, d, p) + Moved(window, at, d, p)
  {
    if window == [] {
      assert earlier + window == earlier;
    } else {
      var n := |window| - 1;
      MovedAdds(earlier, window[..n], at, d, p);
      assert (earlier + window)[..|earlier| + n] == earlier + window[..n];
    }
  }

  // ---------------------------------------------------------------- histograms are binned samples

  /** The two latency histograms of a bucket. */
  datatype Series = CheckpointTimes | PublicationTimes

  function Histogram(b: Bucket, s: Series): seq<nat> {
    match s
    case CheckpointTimes => b.checkpoint
    case PublicationTimes => b.publication
  }

  /** The durations recorded in a slot, in order. */
  function Samples(events: seq<Event>, at: Place, s: Series): seq<nat> {
    if events == [] then [] else Samples(events[..|events| - 1], at, s) + SampledBy(events[|events| - 1], at, s)
  }

  function SampledBy(e: Event, at: Place, s: Series): seq<nat> {
    if !Belongs(e, at) then []
    else
      match s
      case CheckpointTimes => if IsCheckpoint(e) then [e.outcome.ns] else []
      case PublicationTimes => if e.FlushCommitted? then [e.ns] else []
  }

  lemma RecordedLatency(samples: seq<nat>, ns: nat)
    requires !RecordLatency(H.Binned(samples), ns).1
    ensures RecordLatency(H.Binned(samples), ns).0 == H.Binned(samples + [ns])
  {
    forall i | 0 <= i < H.BUCKETS ensures RecordLatency(H.Binned(samples), ns).0[i] == H.Binned(samples + [ns])[i] {
      H.BinnedSnoc(samples, ns, i);
    }
  }

  lemma StepBins(snapshot: Snapshot, e: Event, i: nat, s: Series, samples: seq<nat>)
    requires Canonical(snapshot) && EventOk(e) && i < 18 && !Step(snapshot, e).overflow
    requires Histogram(snapshot.buckets[i], s) == H.Binned(samples)
    ensures Histogram(Step(snapshot, e).buckets[i], s) == H.Binned(samples + SampledBy(e, PlaceAt(i), s))
  {
    var sampled := SampledBy(e, PlaceAt(i), s);
    OwnBucket(snapshot, e, i);
    if sampled != [] {
      RecordedLatency(samples, sampled[0]);
    } else {
      assert samples + [] == samples;
    }
  }

  /** Unless something overflowed, a latency histogram is the binning of exactly the durations of its run. */
  lemma {:induction false} HistogramIsBinned(id: nat, events: seq<Event>, i: nat, s: Series)
    requires forall k :: 0 <= k < |events| ==> EventOk(events[k])
    requires i < 18 && !Replay(id, events).overflow
    ensures Histogram(Replay(id, events).buckets[i], s) ==
            H.Binned(Samples(events, PlaceOf(Replay(id, events).buckets[i]), s))
  {
    if events != [] {
      var n := |events| - 1;
      HistogramIsBinned(id, events[..n], i, s);
      StepBins(Replay(id, events[..n]), events[n], i, s, Samples(events[..n], PlaceAt(i), s));
    }
  }

  lemma SamplesOfOneMore(events: seq<Event>, e: Event, at: Place, s: Series)
    ensures Samples(events + [e], at, s) == Samples(events, at, s) + SampledBy(e, at, s)
  {
    assert (events + [e])[..|events|] == events;
  }

  lemma {:induction false} SamplesAppend(earlier: seq<Event>, window: seq<Event>, at: Place, s: Series)
    ensures Samples(earlier + window, at, s) == Samples(earlier, at, s) + Samples(window, at, s)
  {
    if window == [] {
      assert earlier + window == earlier;
    } else {
      var init, e := window[..|window| - 1], window[|window| - 1];
      SamplesAppend(earlier, init, at, s);
      LastApart(earlier, window);
      SamplesOfOneMore(earlier + init, e, at, s);
      SamplesOfOneMore(init, e, at, s);
      Associates(Samples(earlier, at, s), Samples(init, at, s), SampledBy(e, at, s));
    }
  }

  lemma LastApart(a: seq<Event>, b: seq<Event>)
    requires b != []
    ensures b == b[..|b| - 1] + [b[|b| - 1]]
    ensures a + b == (a + b[..|b| - 1]) + [b[|b| - 1]]
  {
  }

  lemma Associates(a: seq<nat>, b: seq<nat>, c: seq<nat>)
    ensures (a + b) + c == a + (b + c)
  {
  }

  /** The committed tables of one size class in a slot. */
  function Classed(events: seq<Event>, at: Place, c: nat): nat {
    if events == [] then 0
    else Classed(events[..|events| - 1], at, c) + ClassedBy(events[|events| - 1], at, c)
  }

  function ClassedBy(e: Event, at: Place, c: nat): nat {
    Flag(Belongs(e, at) && e.FlushCommitted? && SizeClass(e.bytes) == c)
  }

  lemma StepClasses(s: Snapshot, e: Event, i: nat, c: nat)
    requires Canonical(s) && EventOk(e) && i < 18 && c < SIZE_CLASSES && !Step(s, e).overflow
    ensures Canonical(Step(s, e)) && !s.overflow
    ensures Step(s, e).buckets[i].sizes[c] == s.buckets[i].sizes[c] + ClassedBy(e, PlaceAt(i), c)
  {
    StepKeepsCanonical(s, e);
    OwnBucket(s, e, i);
    if EventSlot(e) == i && e.FlushCommitted? {
      SizeClassOfU64(e.bytes);
      assert !Add(s.buckets[i].sizes[SizeClass(e.bytes)], 1).1;
    }
  }

  /** Unless something overflowed, a size class counts exactly the run's tables of that class. */
  lemma {:induction false} SizesAreClassed(id: nat, events: seq<Event>, i: nat, c: nat)
    requires forall k :: 0 <= k < |events| ==> EventOk(events[k])
    requires i < 18 && c < SIZE_CLASSES && !Replay(id, events).overflow
    ensures Replay(id, events).buckets[i].sizes[c] == Classed(events, PlaceOf(Replay(id, events).buckets[i]), c)
  {
    if events != [] {
      var n := |events| - 1;
      StepClasses(Replay(id, events[..n]), events[n], i, c);
      SizesAreClassed(id, events[..n], i, c);
    }
  }

  lemma {:induction false} ClassedAdds(earlier: seq<Event>, window: seq<Event>, at: Place, c: nat)
    ensures Classed(earlier + window, at, c) == Classed(earlier, at, c) + Classed(window, at, c)
  {
    if window == [] {
      assert earlier + window == earlier;
    } else {
      var n := |window| - 1;
      ClassedAdds(earlier, window[..n], at, c);
      assert (earlier + window)[..|earlier| + n] == earlier + window[..n];
    }
  }

  // ---------------------------------------------------------------- when the overflow flag is raised

  /** A latency beyond the last bin's bound, or a bin that is full. */
  predicate LatencyOverflows(counts: seq<nat>, ns: nat)
    requires |counts| == H.BUCKETS
  {
    ns > H.Upper(79) || counts[H.BinOf(ns)] >= MAX_U64
  }

  /** The event is invalid in itself. */
  predicate Faulted(e: Event) {
    (e.Fold? && e.outcome.tainted) || (e.FlushCommitted? && e.bytes == 0)
  }

  predicate CountersOverflow(b: Bucket, e: Event)
    requires BucketFormed(b)
  {
    exists c: Counter :: b.counters[c] + Contribution(e, c) > MAX_U64
  }

  predicate PayloadsOverflow(b: Bucket, o: Outcome)
    requires BucketFormed(b) && |o.issued| == |o.returned| == PAYLOADS
  {
    exists p :: 0 <= p < PAYLOADS && (b.issued[p] + o.issued[p] > MAX_U64 || b.returned[p] + o.returned[p] > MAX_U64)
  }

  /** Recording the event in its bucket loses something. */
  predicate Overflows(b: Bucket, e: Event)
    requires BucketFormed(b) && EventOk(e)
  {
    || Faulted(e)
    || CountersOverflow(b, e)
    || match e
       case Begin(_, _) => b.active >= MAX_U64
       case Fold(_, _, o) =>
         || b.active == 0 || PayloadsOverflow(b, o)
         || (o.kind.Checkpoint? && LatencyOverflows(b.checkpoint, o.ns))
       case FlushCommitted(_, _, bytes, ns) =>
         SizeClassOfU64(bytes);
         LatencyOverflows(b.publication, ns) || b.sizes[SizeClass(bytes)] >= MAX_U64
       case _ => false
  }

  /** Every counter of the bucket still fits. */
  predicate Within(b: Bucket) {
    BucketFormed(b) && forall c: Counter :: b.counters[c] <= MAX_U64
  }

  lemma FoldFlag(counters: map<Counter, nat>, input: map<Counter, nat>)
    requires forall c: Counter :: c in counters
    ensures FoldCounters(counters, input).1 <==> exists c: Counter :: counters[c] + Amount(input, c) > MAX_U64
  {
    if c: Counter :| counters[c] + Amount(input, c) > MAX_U64 { assert Add(counters[c], Amount(input, c)).1; }
  }

  lemma FoldOverflows(b: Bucket, e: Event)
    requires Within(b) && EventOk(e) && e.Fold?
    ensures Updated(b, e).1 <==> Overflows(b, e)
  {
    FoldFlag(b.counters, LedgerCounters(e.outcome));
    forall c: Counter ensures Amount(LedgerCounters(e.outcome), c) == Contribution(e, c) { LedgerAmount(e, c); }
    PayloadFlags(b, e.outcome);
  }

  lemma PayloadFlags(b: Bucket, o: Outcome)
    requires BucketFormed(b) && |o.issued| == |o.returned| == PAYLOADS
    ensures FoldArray(b.issued, o.issued).1 || FoldArray(b.returned, o.returned).1 <==> PayloadsOverflow(b, o)
  {
    if p :| 0 <= p < PAYLOADS && b.issued[p] + o.issued[p] > MAX_U64 { assert Add(b.issued[p], o.issued[p]).1; }
    if p :| 0 <= p < PAYLOADS && b.returned[p] + o.returned[p] > MAX_U64 { assert Add(b.returned[p], o.returned[p]).1; }
  }

  lemma OtherAmounts(e: Event, input: map<Counter, nat>)
    requires match e
             case PublicationAttempt(_, _, ns, failed) =>
               input == map[PublicationAttempts := 1, PublicationFailures := Flag(failed),
                            PublicationAttemptElapsedNs := ns]
             case FlushCommitted(_, _, bytes, ns) =>
               input == map[FlushCommittedCount := 1, FlushCommittedSstBytes := bytes,
                            FlushFullPublicationElapsedNs := ns]
             case CompactionCommitted(_, bytes) =>
               input == map[CompactionCommittedCount := 1, CompactionCommittedSstBytes := bytes]
             case _ => false
    ensures forall c: Counter :: Amount(input, c) == Contribution(e, c)
  {
  }

  lemma OtherOverflows(b: Bucket, e: Event)
    requires Within(b) && EventOk(e) && !e.Fold?
    ensures Updated(b, e).1 <==> Overflows(b, e)
  {
    match e
    case PublicationAttempt(_, _, ns, failed) =>
      var input := map[PublicationAttempts := 1, PublicationFailures := Flag(failed),
                       PublicationAttemptElapsedNs := ns];
      OtherAmounts(e, input);
      FoldFlag(b.counters, input);
    case FlushCommitted(_, _, bytes, ns) =>
      SizeClassOfU64(bytes);
      var input := map[FlushCommittedCount := 1, FlushCommittedSstBytes := bytes, FlushFullPublicationElapsedNs := ns];
      OtherAmounts(e, input);
      FoldFlag(b.counters, input);
    case CompactionCommitted(_, bytes) =>
      var input := map[CompactionCommittedCount := 1, CompactionCommittedSstBytes := bytes];
      OtherAmounts(e, input);
      FoldFlag(b.counters, input);
    case Begin(_, _) => assert forall c: Counter :: Contribution(e, c) == 0;
    case LateWrite => assert forall c: Counter :: Contribution(e, c) == 0;
    case MissingStart => assert forall c: Counter :: Contribution(e, c) == 0;
    case Fold(_, _, _) =>
  }

  /** The flag is raised by exactly the events that are invalid or do not fit. */
  lemma OverflowExactly(s: Snapshot, e: Event)
    requires Canonical(s) && EventOk(e) && Within(s.buckets[EventSlot(e)])
    ensures Step(s, e).overflow <==>
            s.overflow || Overflows(s.buckets[EventSlot(e)], e) || (e.MissingStart? && s.incomplete >= MAX_U64)
  {
    if e.Fold? { FoldOverflows(s.buckets[EventSlot(e)], e); } else { OtherOverflows(s.buckets[EventSlot(e)], e); }
  }

  lemma UpdatedIsWithin(b: Bucket, e: Event)
    requires Within(b) && EventOk(e)
    ensures Within(Updated(b, e).0)
  {
    UpdatedIsFormed(b, e);
  }

  lemma {:induction false} ReplayIsWithin(id: nat, events: seq<Event>, i: nat)
    requires forall k :: 0 <= k < |events| ==> EventOk(events[k])
    requires i < 18
    ensures Within(Replay(id, events).buckets[i])
  {
    if events != [] {
      var n := |events| - 1;
      ReplayIsWithin(id, events[..n], i);
      if i == EventSlot(events[n]) { UpdatedIsWithin(Replay(id, events[..n]).buckets[i], events[n]); }
    }
  }

  predicate LossyIn(s: Snapshot, e: Event)
    requires Canonical(s) && EventOk(e)
  {
    Overflows(s.buckets[EventSlot(e)], e) || (e.MissingStart? && s.incomplete >= MAX_U64)
  }

  /** No event of the run lost anything when it was recorded. */
  ghost predicate Lossless(id: nat, events: seq<Event>)
    requires forall k :: 0 <= k < |events| ==> EventOk(events[k])
  {
    events == [] ||
    var init, e := events[..|events| - 1], events[|events| - 1];
    Lossless(id, init) && !LossyIn(Replay(id, init), e)
  }

  lemma LastIsLossy(id: nat, init: seq<Event>, e: Event)
    requires (forall k :: 0 <= k < |init| ==> EventOk(init[k])) && EventOk(e)
    ensures Step(Replay(id, init), e).overflow <==> Replay(id, init).overflow || LossyIn(Replay(id, init), e)
  {
    ReplayIsWithin(id, init, EventSlot(e));
    OverflowExactly(Replay(id, init), e);
  }

  /** Over a whole run the flag stays clear exactly when the owner is real and no event was invalid or did not fit. */
  lemma {:induction false} ClearExactly(id: nat, events: seq<Event>)
    requires forall k :: 0 <= k < |events| ==> EventOk(events[k])
    ensures !Replay(id, events).overflow <==> id > 0 && Lossless(id, events)
  {
    if events != [] {
      ClearExactly(id, events[..|events| - 1]);
      LastIsLossy(id, events[..|events| - 1], events[|events| - 1]);
    }
  }

  // ---------------------------------------------------------------- windows

  ghost predicate GoodRun(id: nat, events: seq<Event>) {
    (forall k :: 0 <= k < |events| ==> EventOk(events[k])) && !Replay(id, events).overflow && A.Contained(events)
  }

  /** Every field of the bucket but its gauge is what the events of its origin and medium amount to. */
  ghost predicate TruthOf(b: Bucket, events: seq<Event>) {
    && BucketFormed(b)
    && (forall c: Counter :: b.counters[c] == Total(events, PlaceOf(b), c))
    && (forall d: Direction, p :: 0 <= p < PAYLOADS ==> Payloads(b, d)[p] == Moved(events, PlaceOf(b), d, p))
    && (forall s: Series :: Histogram(b, s) == H.Binned(Samples(events, PlaceOf(b), s)))
    && (forall c :: 0 <= c < SIZE_CLASSES ==> b.sizes[c] == Classed(events, PlaceOf(b), c))
  }

  /** Conservation in every field: a snapshot tells the truth about its run. */
  lemma SnapshotHolds(id: nat, events: seq<Event>, i: nat)
    requires forall k :: 0 <= k < |events| ==> EventOk(events[k])
    requires i < 18 && !Replay(id, events).overflow
    ensures TruthOf(Replay(id, events).buckets[i], events)
  {
    assert PlaceOf(Replay(id, events).buckets[i]) == PlaceAt(i);
    forall c: Counter ensures Replay(id, events).buckets[i].counters[c] == Total(events, PlaceAt(i), c) {
      CountersAreTotals(id, events, i, c);
    }
    forall d: Direction, p | 0 <= p < PAYLOADS
      ensures Payloads(Replay(id, events).buckets[i], d)[p] == Moved(events, PlaceAt(i), d, p)
    {
      PayloadsAreTotals(id, events, i, d, p);
    }
    forall s: Series ensures Histogram(Replay(id, events).buckets[i], s) == H.Binned(Samples(events, PlaceAt(i), s)) {
      HistogramIsBinned(id, events, i, s);
    }
    forall c | 0 <= c < SIZE_CLASSES ensures Replay(id, events).buckets[i].sizes[c] == Classed(events, PlaceAt(i), c) {
      SizesAreClassed(id, events, i, c);
    }
  }

  /** Between two buckets that tell the truth, so does the difference. */
  lemma DifferenceHolds(after: Bucket, before: Bucket, d: Bucket, earlier: seq<Event>, window: seq<Event>)
    requires TruthOf(after, earlier + window) && TruthOf(before, earlier) && PlaceOf(after) == PlaceOf(before)
    requires BucketDifference(after, before) == Some(d)
    ensures TruthOf(d, window) && PlaceOf(d) == PlaceOf(after)
  {
    DifferenceParts(after, before);
    var at := PlaceOf(d);
    forall c: Counter ensures d.counters[c] == Total(window, at, c) {
      CounterDifferenceAt(after.counters, before.counters, c);
      TotalsAdd(earlier, window, at, c);
    }
    forall x: Direction, p | 0 <= p < PAYLOADS ensures Payloads(d, x)[p] == Moved(window, at, x, p) {
      assert H.Difference(Payloads(after, x), Payloads(before, x)) == Some(Payloads(d, x));
      MovedAdds(earlier, window, at, x, p);
    }
    forall s: Series ensures Histogram(d, s) == H.Binned(Samples(window, at, s)) {
      assert H.Difference(Histogram(after, s), Histogram(before, s)) == Some(Histogram(d, s));
      SamplesAppend(earlier, window, at, s);
      H.WindowHistogram(Samples(earlier, at, s), Samples(window, at, s));
    }
    forall c | 0 <= c < SIZE_CLASSES ensures d.sizes[c] == Classed(window, at, c) {
      ClassedAdds(earlier, window, at, c);
    }
  }

  /** The window between two snapshots tells the truth about the events between them. */
  lemma BucketWindowHolds(id: nat, earlier: seq<Event>, window: seq<Event>, i: nat)
    requires GoodRun(id, earlier + window) && i < 18
    ensures GoodRun(id, earlier)
    ensures
      var d := BucketDifference(Replay(id, earlier + window).buckets[i], Replay(id, earlier).buckets[i]);
      d.Some? && TruthOf(d.value, window) && PlaceOf(d.value) == PlaceAt(i)
  {
    LaterDominates(id, earlier + window, earlier, i);
    var after, before := Replay(id, earlier + window).buckets[i], Replay(id, earlier).buckets[i];
    SnapshotHolds(id, earlier + window, i);
    SnapshotHolds(id, earlier, i);
    DifferenceHolds(after, before, BucketDifference(after, before).value, earlier, window);
  }

  lemma WindowExists(id: nat, earlier: seq<Event>, window: seq<Event>)
    requires GoodRun(id, earlier + window)
    ensures GoodRun(id, earlier)
    ensures Delta(Replay(id, earlier + window), Replay(id, earlier)).Some?
    ensures Canonical(Delta(Replay(id, earlier + window), Replay(id, earlier)).value)
  {
    BucketWindowHolds(id, earlier, window, 0);
    var after, before := Replay(id, earlier + window), Replay(id, earlier);
    A.EscapesAreReported(id, earlier + window);
    A.EscapesAreReported(id, earlier);
    forall i | 0 <= i < 18 ensures BucketDifference(after.buckets[i], before.buckets[i]).Some? {
      BucketWindowHolds(id, earlier, window, i);
    }
    A.DeltaIsCanonical(after, before);
  }

  /** Not even 95 in 100 of the samples are below 5 ms. */
  predicate SlowTail(samples: seq<nat>) {
    100 * H.CountBelow(samples, 5_000_000) < 95 * |samples|
  }

  lemma PercentileIsTrue(samples: seq<nat>)
    ensures
      var p95 := H.P95Bounds(H.Binned(samples));
      p95.Some? && p95.value.0 >= 5_000_000 <==> SlowTail(samples)
  {
    H.PrefixCounts(samples, H.BUCKETS);
    if samples != [] {
      var v := H.P95Exists(samples);
      H.WindowPercentileIsDecisive([], samples, v);
      H.WindowHistogram([], samples);
      assert [] + samples == samples;
      H.P95AtLeast(samples, v, 5_000_000);
    }
  }

  /** Where ordinary local flushes to persistent media are accounted. */
  const ORDINARY := Place(OrdinaryLocalFlush, Persistent)

  /**
    The verdict's misses are the truth about the ordinary persistent events
    between the two snapshots: their total bytes and times, and whether 95 in
    100 of their checkpoints took less than 5 ms.
   */
  lemma MissesAreTrue(id: nat, earlier: seq<Event>, window: seq<Event>)
    requires GoodRun(id, earlier + window)
    ensures GoodRun(id, earlier)
    ensures
      var d := Delta(Replay(id, earlier + window), Replay(id, earlier));
      && d.Some? && Canonical(d.value)
      && (Misses(d.value).snapshotMiss <==>
            Moved(window, ORDINARY, Outward, 0) * 100 >= Total(window, ORDINARY, FlushCommittedSstBytes) * 5)
      && (Misses(d.value).checkpointMiss <==>
            && Total(window, ORDINARY, CheckpointElapsedNs) * 100
               >= Total(window, ORDINARY, FlushFullPublicationElapsedNs) * 20
            && SlowTail(Samples(window, ORDINARY, CheckpointTimes)))
  {
    WindowExists(id, earlier, window);
    BucketWindowHolds(id, earlier, window, 0);
    var b := Delta(Replay(id, earlier + window), Replay(id, earlier)).value.buckets[0];
    assert PlaceOf(b) == ORDINARY;
    assert Payloads(b, Outward)[0] == Moved(window, ORDINARY, Outward, 0);
    assert Histogram(b, CheckpointTimes) == H.Binned(Samples(window, ORDINARY, CheckpointTimes));
    PercentileIsTrue(Samples(window, ORDINARY, CheckpointTimes));
  }
}
