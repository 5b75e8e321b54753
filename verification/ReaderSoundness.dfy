/** What the independent reader's checks mean for documents from any source, not only for those a run wrote. */
module ReaderSoundness {
  import opened Basics
  import opened CounterTree
  import opened Accounting
  import opened AccountingJson
  import opened CheckpointGate
  import opened GateAgreement
  import H = Histogram

  // ---------------------------------------------------------------- documents and snapshots

  /** The bucket a shaped document describes. */
  function BucketOf(v: Value, i: nat): Bucket
    requires i < 18 && BucketShape(v, i)
  {
    Bucket(ORIGINS[i / 2], SlotMedium(i), map c: Counter | true :: CounterOf(v, c),
           U64Array(Index(Index(v, Counters), IssuedBytes), PAYLOADS).value,
           U64Array(Index(Index(v, Counters), ReturnedWriteBytes), PAYLOADS).value,
           U64Array(Index(Index(v, CheckpointLatency), Counts), H.BUCKETS).value,
           U64Array(Index(Index(v, FullPublicationLatency), Counts), H.BUCKETS).value,
           U64Array(Index(v, CommittedSstSizeLog2), SIZE_CLASSES).value,
           Number(v, ActiveOperations).value)
  }

  lemma ArrayHasItsSize(v: Value, size: nat)
    ensures U64Array(v, size).Some? ==> |U64Array(v, size).value| == size
  {
  }

  lemma BucketIsRead(v: Value, i: nat)
    requires i < 18 && BucketShape(v, i)
    ensures BucketFormed(BucketOf(v, i)) && Documents(v, BucketOf(v, i))
  {
    ArrayHasItsSize(Index(Index(v, Counters), IssuedBytes), PAYLOADS);
    ArrayHasItsSize(Index(Index(v, Counters), ReturnedWriteBytes), PAYLOADS);
    ArrayHasItsSize(Index(Index(v, CheckpointLatency), Counts), H.BUCKETS);
    ArrayHasItsSize(Index(Index(v, FullPublicationLatency), Counts), H.BUCKETS);
    ArrayHasItsSize(Index(v, CommittedSstSizeLog2), SIZE_CLASSES);
  }

  function SnapshotOf(v: Value): Snapshot
    requires Shape(v)
  {
    var vs := ArrayAt(v, Buckets).value;
    Snapshot(Number(v, OwnerId).value,
             seq(18, i requires 0 <= i < 18 && BucketShape(vs[i], i) => BucketOf(vs[i], i)), false, 0, 0)
  }

  lemma SnapshotIsRead(v: Value)
    requires Shape(v)
    ensures DocumentOf(v, SnapshotOf(v)) && Untainted(SnapshotOf(v))
  {
    var vs := ArrayAt(v, Buckets).value;
    forall i | 0 <= i < 18
      ensures BucketFormed(SnapshotOf(v).buckets[i]) && Documents(vs[i], SnapshotOf(v).buckets[i])
    {
      assert BucketShape(vs[i], i);
      BucketIsRead(vs[i], i);
    }
  }

  /** A document has the expected shape exactly when it describes some untainted snapshot of a real owner. */
  lemma ShapeExactly(v: Value)
    ensures Shape(v) <==> exists s :: DocumentOf(v, s) && Untainted(s)
  {
    if Shape(v) { SnapshotIsRead(v); }
    forall s | DocumentOf(v, s) && Untainted(s) ensures Shape(v) { ShapeReadsUntainted(v, s); }
  }

  // ---------------------------------------------------------------- the window

  lemma SubtractField(x: Value, y: Value, k: Key)
    requires Subtract(x, y).Some? && x.Obj? && Index(x, k) != Null
    ensures Subtract(Index(x, k), Index(y, k)) == Some(Index(Subtract(x, y).value, k))
  {
    assert k in x.fields;
  }

  lemma SubtractedArray(x: Value, y: Value, size: nat)
    requires Subtract(x, y).Some? && U64Array(x, size).Some? && U64Array(y, size).Some?
    ensures H.Difference(U64Array(x, size).value, U64Array(y, size).value).Some?
    ensures U64Array(Subtract(x, y).value, size)
            == H.Difference(U64Array(x, size).value, U64Array(y, size).value)
  {
    var a, b, z := U64Array(x, size).value, U64Array(y, size).value, Subtract(x, y).value;
    forall i | 0 <= i < size ensures b[i] <= a[i] && z.items[i] == Num(a[i] - b[i]) {
      assert Subtract(x.items[i], y.items[i]).Some?;
    }
    assert U64Array(z, size).value == H.Difference(a, b).value;
  }

  /** `z` holds the differences of these counters, none of which is negative. */
  ghost predicate HoldsDifferences(z: Value, a: map<Counter, nat>, b: map<Counter, nat>) {
    forall c: Counter :: c in a && c in b && b[c] <= a[c] && Number(z, CounterKey(c)) == Some(a[c] - b[c])
  }

  lemma SubtractedCounter(x: Value, y: Value, z: Value, k: Key, m: nat, n: nat)
    requires Subtract(x, y) == Some(z) && Number(x, k) == Some(m) && Number(y, k) == Some(n)
    ensures n <= m && Number(z, k) == Some(m - n)
  {
    SubtractField(x, y, k);
  }

  lemma SubtractedCounters(x: Value, y: Value, z: Value, a: map<Counter, nat>, b: map<Counter, nat>)
    requires Subtract(x, y) == Some(z)
    requires forall c: Counter :: c in a && Number(x, CounterKey(c)) == Some(a[c])
    requires forall c: Counter :: c in b && Number(y, CounterKey(c)) == Some(b[c])
    ensures HoldsDifferences(z, a, b)
  {
    forall c: Counter ensures b[c] <= a[c] && Number(z, CounterKey(c)) == Some(a[c] - b[c]) {
      assert Number(x, CounterKey(c)) == Some(a[c]) && Number(y, CounterKey(c)) == Some(b[c]);
      SubtractedCounter(x, y, z, CounterKey(c), a[c], b[c]);
    }
  }

  lemma DifferencesHeld(z: Value, a: map<Counter, nat>, b: map<Counter, nat>)
    requires HoldsDifferences(z, a, b)
    ensures CounterDifference(a, b).Some?
    ensures forall c: Counter :: Number(z, CounterKey(c)) == Some(CounterDifference(a, b).value[c])
  {
  }

  lemma SubtractedPayload(x: Value, y: Value, z: Value, k: Key, a: seq<nat>, b: seq<nat>, size: nat)
    requires Subtract(x, y) == Some(z)
    requires U64Array(Index(x, k), size) == Some(a) && U64Array(Index(y, k), size) == Some(b)
    ensures H.Difference(a, b).Some? && U64Array(Index(z, k), size) == H.Difference(a, b)
  {
    SubtractField(x, y, k);
    SubtractedArray(Index(x, k), Index(y, k), size);
  }

  lemma UntouchedByWindow(after: Value, before: Value, k: Key)
    requires after.Obj? && BucketWindow(after, before).Some? && !IsMeasure(k)
    ensures Index(BucketWindow(after, before).value, k) == Index(after, k)
  {
  }

  lemma CounterWindow(v: Value, u: Value, w: Value, a: Bucket, b: Bucket)
    requires BucketFormed(a) && BucketFormed(b) && Documents(v, a) && Documents(u, b)
    requires v.Obj? && BucketWindow(v, u) == Some(w)
    ensures CountersGrew(a, b) && HoldsDifferences(Index(w, Counters), a.counters, b.counters)
    ensures U64Array(Index(Index(w, Counters), IssuedBytes), PAYLOADS) == H.Difference(a.issued, b.issued)
    ensures U64Array(Index(Index(w, Counters), ReturnedWriteBytes), PAYLOADS) == H.Difference(a.returned, b.returned)
  {
    MeasureOfWindow(v, u, Counters);
    var x, y, z := Index(v, Counters), Index(u, Counters), Index(w, Counters);
    SubtractedCounters(x, y, z, a.counters, b.counters);
    DifferencesHeld(z, a.counters, b.counters);
    SubtractedPayload(x, y, z, IssuedBytes, a.issued, b.issued, PAYLOADS);
    SubtractedPayload(x, y, z, ReturnedWriteBytes, a.returned, b.returned, PAYLOADS);
  }

  lemma HistogramWindow(v: Value, u: Value, w: Value, a: Bucket, b: Bucket)
    requires BucketFormed(a) && BucketFormed(b) && Documents(v, a) && Documents(u, b)
    requires v.Obj? && BucketWindow(v, u) == Some(w)
    ensures H.Difference(a.checkpoint, b.checkpoint).Some? && H.Difference(a.publication, b.publication).Some?
    ensures U64Array(Index(Index(w, CheckpointLatency), Counts), H.BUCKETS) == H.Difference(a.checkpoint, b.checkpoint)
    ensures U64Array(Index(Index(w, FullPublicationLatency), Counts), H.BUCKETS)
            == H.Difference(a.publication, b.publication)
    ensures H.Difference(a.sizes, b.sizes).Some?
    ensures U64Array(Index(w, CommittedSstSizeLog2), SIZE_CLASSES) == H.Difference(a.sizes, b.sizes)
  {
    MeasureOfWindow(v, u, CheckpointLatency);
    MeasureOfWindow(v, u, FullPublicationLatency);
    MeasureOfWindow(v, u, CommittedSstSizeLog2);
    SubtractedPayload(Index(v, CheckpointLatency), Index(u, CheckpointLatency), Index(w, CheckpointLatency), Counts,
                      a.checkpoint, b.checkpoint, H.BUCKETS);
    SubtractedPayload(Index(v, FullPublicationLatency), Index(u, FullPublicationLatency),
                      Index(w, FullPublicationLatency), Counts, a.publication, b.publication, H.BUCKETS);
    SubtractedArray(Index(v, CommittedSstSizeLog2), Index(u, CommittedSstSizeLog2), SIZE_CLASSES);
  }

  /** The window of two bucket documents, if it exists, is a document of the difference of their buckets. */
  lemma BucketWindowDocuments(v: Value, u: Value, a: Bucket, b: Bucket)
    requires BucketFormed(a) && BucketFormed(b) && PlaceOf(a) == PlaceOf(b) && Documents(v, a) && Documents(u, b)
    requires v.Obj? && BucketWindow(v, u).Some?
    ensures BucketDifference(a, b).Some? && BucketFormed(BucketDifference(a, b).value)
    ensures Documents(BucketWindow(v, u).value, BucketDifference(a, b).value)
  {
    var w := BucketWindow(v, u).value;
    CounterWindow(v, u, w, a, b);
    HistogramWindow(v, u, w, a, b);
    UntouchedByWindow(v, u, OriginKey);
    UntouchedByWindow(v, u, MediumKey);
    UntouchedByWindow(v, u, ActiveOperations);
    DifferenceParts(a, b);
    DifferencesHeld(Index(w, Counters), a.counters, b.counters);
  }

  lemma WindowKeepsHeader(after: Value, before: Value, k: Key)
    requires Window(after, before).Some? && k != Buckets
    ensures Index(Window(after, before).value, k) == Index(after, k)
  {
  }

  /** The window of two documents, if the reader finds one, is a document of the engine's own window. */
  lemma WindowDocuments(after: Value, before: Value, a: Snapshot, b: Snapshot)
    requires DocumentOf(after, a) && DocumentOf(before, b) && Window(after, before).Some?
    ensures Delta(a, b).Some? && DocumentOf(Window(after, before).value, Delta(a, b).value)
  {
    ShapeReadsUntainted(after, a);
    ShapeReadsUntainted(before, b);
    var vs, us := ArrayAt(after, Buckets).value, ArrayAt(before, Buckets).value;
    forall i | 0 <= i < 18
      ensures BucketDifference(a.buckets[i], b.buckets[i]).Some?
      ensures BucketFormed(BucketDifference(a.buckets[i], b.buckets[i]).value)
      ensures ArrayAt(Window(after, before).value, Buckets).Some?
      ensures |ArrayAt(Window(after, before).value, Buckets).value| == 18
      ensures Documents(ArrayAt(Window(after, before).value, Buckets).value[i],
                        BucketDifference(a.buckets[i], b.buckets[i]).value)
    {
      WindowBuckets(after, before, i);
      assert Documents(vs[i], a.buckets[i]) && Documents(us[i], b.buckets[i]);
      BucketWindowDocuments(vs[i], us[i], a.buckets[i], b.buckets[i]);
    }
    DeltaIsCanonical(a, b);
    WindowKeepsHeader(after, before, OwnerId);
    WindowKeepsHeader(after, before, Overflow);
    WindowKeepsHeader(after, before, LateOperationWrites);
    WindowKeepsHeader(after, before, IncompleteObservations);
  }

  // ---------------------------------------------------------------- accepted evidence

  /** The snapshots four shaped documents describe. */
  function EvidenceOf(docs: Evidence<Value>): Evidence<Snapshot>
    requires Shape(docs.before) && Shape(docs.after) && Shape(docs.settled) && Shape(docs.reopened)
  {
    Evidence(SnapshotOf(docs.before), SnapshotOf(docs.after), SnapshotOf(docs.settled), SnapshotOf(docs.reopened))
  }

  /**
    Whoever wrote them: documents the reader accepts describe a run that
    accepts itself. It has a window between two untainted snapshots of one
    owner that opened idle and was settled without a reason, its reopened owner
    is another one, settled too, and the recorded gate is the verdict on that
    window.
   */
  lemma AcceptedEvidenceIsSound(docs: Evidence<Value>, m: Meter, file: WindowFile, measured: nat, rows: nat)
    returns (e: Evidence<Snapshot>)
    requires EvidenceAccepted(docs, m, Some(file), measured, rows)
    ensures Describes(docs, e) && Formed(e) && Untainted(e.before) && PersistentIdle(e.before)
    ensures Delta(e.after, e.before).Some? && Canonical(Delta(e.after, e.before).value)
    ensures DocumentOf(file.delta, Delta(e.after, e.before).value)
    ensures SelfAccepted(e, e.reopened.owner, m, measured) && Delta(e.settled, e.after).Some?
    ensures 0 < e.reopened.owner != e.settled.owner
    ensures file.gate == Some(Misses(Delta(e.after, e.before).value)) && file.finalized && file.elapsed > 0
    ensures file.compactions == m.compactionsAfter - m.compactionsBefore && file.acknowledged == measured * rows
  {
    e := EvidenceOf(docs);
    SnapshotIsRead(docs.before);
    SnapshotIsRead(docs.after);
    SnapshotIsRead(docs.settled);
    SnapshotIsRead(docs.reopened);
    OwnersRead(docs, e);
    WindowDocuments(docs.after, docs.before, e.after, e.before);
    WindowDocuments(docs.settled, docs.after, e.settled, e.after);
    GatesAgree(file.delta, Delta(e.after, e.before).value, measured, file.compactions);
  }
}
