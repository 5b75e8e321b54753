/** The independent reader of accounting documents: shape, window, integrity and gate. */
module AccountingJson {
  import opened Basics
  import opened CounterTree
  import opened Accounting
  import H = Histogram

  // ---------------------------------------------------------------- serialization

  function NumArr(a: seq<nat>): Value {
    Arr(seq(|a|, i requires 0 <= i < |a| => Num(a[i])))
  }

  function CountersJson(b: Bucket): Value {
    Obj((map c | c in b.counters :: CounterKey(c) := Num(b.counters[c])) +
        map[IssuedBytes := NumArr(b.issued), ReturnedWriteBytes := NumArr(b.returned)])
  }

  function HistogramJson(counts: seq<nat>): Value {
    Obj(map[Counts := NumArr(counts)])
  }

  function BucketObject(origin: Value, medium: Value, counters: Value, checkpoint: Value, publication: Value,
                        sizes: Value, active: Value): Value {
    Obj(map[OriginKey := origin, MediumKey := medium, ActiveOperations := active]
        + Measures(counters, checkpoint, publication, sizes))
  }

  /** The four fields of a bucket that a window subtracts. */
  function Measures(counters: Value, checkpoint: Value, publication: Value, sizes: Value): map<Key, Value> {
    map[Counters := counters, CheckpointLatency := checkpoint, FullPublicationLatency := publication,
        CommittedSstSizeLog2 := sizes]
  }

  function BucketJson(b: Bucket): Value {
    BucketObject(Str(OriginText(b.origin)), Str(MediumText(b.medium)), CountersJson(b),
                 HistogramJson(b.checkpoint), HistogramJson(b.publication), NumArr(b.sizes), Num(b.active))
  }

  function SnapshotObject(owner: Value, buckets: Value, overflow: Value, late: Value, incomplete: Value): Value {
    Obj(map[OwnerId := owner, Buckets := buckets, Overflow := overflow, LateOperationWrites := late,
            IncompleteObservations := incomplete])
  }

  function BucketsJson(buckets: seq<Bucket>): Value {
    Arr(seq(|buckets|, i requires 0 <= i < |buckets| => BucketJson(buckets[i])))
  }

  function SnapshotJson(s: Snapshot): Value {
    SnapshotObject(Num(s.owner), BucketsJson(s.buckets), Bool(s.overflow), Num(s.late), Num(s.incomplete))
  }

  // ---------------------------------------------------------------- the reader's checks

  predicate BucketShape(b: Value, i: nat)
    requires i < 18
  {
    && Index(b, OriginKey) == Str(OriginText(ORIGINS[i / 2]))
    && Index(b, MediumKey) == Str(MediumText(SlotMedium(i)))
    && Number(b, ActiveOperations).Some?
    && (forall c: Counter :: Number(Index(b, Counters), CounterKey(c)).Some?)
    && U64Array(Index(Index(b, Counters), IssuedBytes), PAYLOADS).Some?
    && U64Array(Index(Index(b, Counters), ReturnedWriteBytes), PAYLOADS).Some?
    && U64Array(Index(Index(b, CheckpointLatency), Counts), H.BUCKETS).Some?
    && U64Array(Index(Index(b, FullPublicationLatency), Counts), H.BUCKETS).Some?
    && U64Array(Index(b, CommittedSstSizeLog2), SIZE_CLASSES).Some?
  }

  predicate Header(s: Value) {
    && Number(s, OwnerId).Some? && Number(s, OwnerId).value > 0
    && Index(s, Overflow) == Bool(false)
    && Number(s, LateOperationWrites) == Some(0) && Number(s, IncompleteObservations) == Some(0)
  }

  predicate Shape(s: Value) {
    && Header(s)
    && ArrayAt(s, Buckets).Some? && |ArrayAt(s, Buckets).value| == 18
    && forall i :: 0 <= i < 18 ==> BucketShape(ArrayAt(s, Buckets).value[i], i)
  }

  function CounterOf(b: Value, c: Counter): nat {
    var n := Number(Index(b, Counters), CounterKey(c));
    if n.Some? then n.value else 0
  }

  function SumOf(v: Value, size: nat): nat {
    var a := U64Array(v, size);
    if a.Some? then H.Sum(a.value) else 0
  }

  predicate BucketIntegrity(b: Value) {
    && Number(b, ActiveOperations) == Some(0)
    && CounterOf(b, OperationFailures) == 0 && CounterOf(b, AbandonedOperations) == 0
    && CounterOf(b, CheckpointCompleteCount) == CounterOf(b, CheckpointAttempts)
    && CounterOf(b, SnapshotDurableCount) == CounterOf(b, CheckpointAttempts)
    && SumOf(Index(Index(b, CheckpointLatency), Counts), H.BUCKETS) == CounterOf(b, CheckpointAttempts)
    && SumOf(Index(Index(b, FullPublicationLatency), Counts), H.BUCKETS) == CounterOf(b, FlushCommittedCount)
    && SumOf(Index(b, CommittedSstSizeLog2), SIZE_CLASSES) == CounterOf(b, FlushCommittedCount)
  }

  predicate IsPersistent(b: Value) {
    Index(b, MediumKey) == Str(MediumText(Persistent))
  }

  predicate PersistentIntegrity(s: Value) {
    Shape(s) && forall i :: 0 <= i < 18 && IsPersistent(ArrayAt(s, Buckets).value[i]) ==>
                  BucketIntegrity(ArrayAt(s, Buckets).value[i])
  }

  predicate UnclassifiedFree(b: Value) {
    Index(b, OriginKey) == Str(OriginText(Unclassified)) ==>
      CounterOf(b, OperationAttempts) == 0 && CounterOf(b, FlushCommittedCount) == 0
  }

  datatype Gate = Gate(snapshotMiss: bool, checkpointMiss: bool, miss: bool, p95: Option<(nat, nat)>)

  /** The ratio tests, on exact products instead of quotients. */
  function Judge(snapshotBytes: nat, sstBytes: nat, checkpointNs: nat, publicationNs: nat,
                 p95: Option<(nat, nat)>): Gate {
    var snapshotMiss := snapshotBytes * 100 >= sstBytes * 5;
    var checkpointMiss := checkpointNs * 100 >= publicationNs * 20 && p95.Some? && p95.value.0 >= H.MISS_NS;
    Gate(snapshotMiss, checkpointMiss, snapshotMiss || checkpointMiss, p95)
  }

  function Evaluate(delta: Value, expectedFlushes: nat, compactions: nat): Option<Gate> {
    if !Shape(delta) || compactions == 0 || !PersistentIntegrity(delta) then None
    else
      var buckets := ArrayAt(delta, Buckets).value;
      if exists i :: 0 <= i < 18 && !UnclassifiedFree(buckets[i]) then None
      else
        var b := buckets[0];
        if CounterOf(b, FlushCommittedCount) != expectedFlushes
           || SumOf(Index(b, CommittedSstSizeLog2), SIZE_CLASSES) != expectedFlushes
           || SumOf(Index(Index(b, FullPublicationLatency), Counts), H.BUCKETS) != expectedFlushes
           || CounterOf(b, FlushCommittedSstBytes) == 0 || CounterOf(b, FlushFullPublicationElapsedNs) == 0
        then None
        else
          var issued := U64Array(Index(Index(b, Counters), IssuedBytes), PAYLOADS).value;
          var counts := U64Array(Index(Index(b, CheckpointLatency), Counts), H.BUCKETS).value;
          Some(Judge(issued[0], CounterOf(b, FlushCommittedSstBytes), CounterOf(b, CheckpointElapsedNs),
                     CounterOf(b, FlushFullPublicationElapsedNs), H.P95Bounds(counts)))
  }

  /** The reader's window: the four counter fields of every bucket are replaced by their differences. */
  function BucketWindow(after: Value, before: Value): Option<Value>
    requires after.Obj?
  {
    var c := Subtract(Index(after, Counters), Index(before, Counters));
    var k := Subtract(Index(after, CheckpointLatency), Index(before, CheckpointLatency));
    var p := Subtract(Index(after, FullPublicationLatency), Index(before, FullPublicationLatency));
    var z := Subtract(Index(after, CommittedSstSizeLog2), Index(before, CommittedSstSizeLog2));
    if c.None? || k.None? || p.None? || z.None? then None
    else Some(Obj(after.fields + Measures(c.value, k.value, p.value, z.value)))
  }

  function Window(after: Value, before: Value): Option<Value> {
    if !Shape(after) || !Shape(before) || Index(after, OwnerId) != Index(before, OwnerId) then None
    else
      var a, b := ArrayAt(after, Buckets).value, ArrayAt(before, Buckets).value;
      var windows := BucketWindows(a, b);
      if windows.None? then None else Some(Obj(after.fields[Buckets := Arr(windows.value)]))
  }

  predicate HasWindow(after: Value, before: Value) {
    after.Obj? && BucketWindow(after, before).Some?
  }

  /** The windows of eighteen buckets, when all of them exist. */
  function BucketWindows(a: seq<Value>, b: seq<Value>): (windows: Option<seq<Value>>)
    requires |a| == |b| == 18
    ensures windows.Some? <==> forall i :: 0 <= i < 18 ==> HasWindow(a[i], b[i])
    ensures windows.Some? ==> |windows.value| == 18
  {
    if forall i :: 0 <= i < 18 ==> HasWindow(a[i], b[i])
    then Some(seq(18, i requires 0 <= i < 18 && HasWindow(a[i], b[i]) => BucketWindow(a[i], b[i]).value))
    else None
  }

  // ---------------------------------------------------------------- reading back what was written

  lemma ReadArray(a: seq<nat>)
    ensures U64Array(NumArr(a), |a|) == Some(a)
  {
    var v := NumArr(a);
    assert forall i :: 0 <= i < |a| ==> v.items[i].Num?;
    assert U64Array(v, |a|).value == a;
  }

  lemma ReadCounter(b: Bucket, c: Counter)
    requires c in b.counters
    ensures Number(CountersJson(b), CounterKey(c)) == Some(b.counters[c])
  {
    var m := map c | c in b.counters :: CounterKey(c) := Num(b.counters[c]);
    assert CounterKey(c) in m;
  }

  /** `v` is a document of bucket `b`. */
  ghost predicate Documents(v: Value, b: Bucket)
    requires BucketFormed(b)
  {
    && Index(v, OriginKey) == Str(OriginText(b.origin))
    && Index(v, MediumKey) == Str(MediumText(b.medium))
    && Number(v, ActiveOperations) == Some(b.active)
    && (forall c: Counter :: Number(Index(v, Counters), CounterKey(c)) == Some(b.counters[c]))
    && U64Array(Index(Index(v, Counters), IssuedBytes), PAYLOADS) == Some(b.issued)
    && U64Array(Index(Index(v, Counters), ReturnedWriteBytes), PAYLOADS) == Some(b.returned)
    && U64Array(Index(Index(v, CheckpointLatency), Counts), H.BUCKETS) == Some(b.checkpoint)
    && U64Array(Index(Index(v, FullPublicationLatency), Counts), H.BUCKETS) == Some(b.publication)
    && U64Array(Index(v, CommittedSstSizeLog2), SIZE_CLASSES) == Some(b.sizes)
  }

  lemma FieldOf(f: map<Key, Value>, g: map<Key, Value>, k: Key)
    ensures k in g ==> Index(Obj(f + g), k) == g[k]
    ensures k !in g && k in f ==> Index(Obj(f + g), k) == f[k]
  {
  }

  lemma BucketFields(origin: Value, medium: Value, counters: Value, checkpoint: Value, publication: Value, sizes: Value,
                     active: Value)
    ensures
      var v := BucketObject(origin, medium, counters, checkpoint, publication, sizes, active);
      && Index(v, OriginKey) == origin && Index(v, MediumKey) == medium && Index(v, ActiveOperations) == active
      && Index(v, Counters) == counters && Index(v, CheckpointLatency) == checkpoint
      && Index(v, FullPublicationLatency) == publication && Index(v, CommittedSstSizeLog2) == sizes
  {
    var f := map[OriginKey := origin, MediumKey := medium, ActiveOperations := active];
    var g := Measures(counters, checkpoint, publication, sizes);
    FieldOf(f, g, OriginKey);
    FieldOf(f, g, MediumKey);
    FieldOf(f, g, ActiveOperations);
    FieldOf(f, g, Counters);
    FieldOf(f, g, CheckpointLatency);
    FieldOf(f, g, FullPublicationLatency);
    FieldOf(f, g, CommittedSstSizeLog2);
  }

  lemma CounterFields(b: Bucket)
    requires BucketFormed(b)
    ensures forall c: Counter :: Number(CountersJson(b), CounterKey(c)) == Some(b.counters[c])
    ensures Index(CountersJson(b), IssuedBytes) == NumArr(b.issued)
    ensures Index(CountersJson(b), ReturnedWriteBytes) == NumArr(b.returned)
  {
    forall c: Counter ensures Number(CountersJson(b), CounterKey(c)) == Some(b.counters[c]) { ReadCounter(b, c); }
  }

  lemma FieldsMakeDocument(v: Value, counters: Value, b: Bucket)
    requires BucketFormed(b)
    requires Index(v, OriginKey) == Str(OriginText(b.origin)) && Index(v, MediumKey) == Str(MediumText(b.medium))
    requires Index(v, ActiveOperations) == Num(b.active) && Index(v, Counters) == counters
    requires Index(v, CheckpointLatency) == HistogramJson(b.checkpoint)
    requires Index(v, FullPublicationLatency) == HistogramJson(b.publication)
    requires Index(v, CommittedSstSizeLog2) == NumArr(b.sizes)
    requires forall c: Counter :: Number(counters, CounterKey(c)) == Some(b.counters[c])
    requires Index(counters, IssuedBytes) == NumArr(b.issued)
             && Index(counters, ReturnedWriteBytes) == NumArr(b.returned)
    ensures Documents(v, b)
  {
    ReadArray(b.issued);
    ReadArray(b.returned);
    ReadArray(b.checkpoint);
    ReadArray(b.publication);
    ReadArray(b.sizes);
  }

  lemma BucketIsDocumented(b: Bucket)
    requires BucketFormed(b)
    ensures Documents(BucketJson(b), b)
  {
    BucketFields(Str(OriginText(b.origin)), Str(MediumText(b.medium)), CountersJson(b),
                 HistogramJson(b.checkpoint), HistogramJson(b.publication), NumArr(b.sizes), Num(b.active));
    CounterFields(b);
    FieldsMakeDocument(BucketJson(b), CountersJson(b), b);
  }

  ghost predicate DocumentsAll(vs: seq<Value>, bs: seq<Bucket>)
    requires forall i :: 0 <= i < |bs| ==> BucketFormed(bs[i])
  {
    |vs| == |bs| && forall i :: 0 <= i < |bs| ==> Documents(vs[i], bs[i])
  }

  lemma SnapshotIsDocumented(s: Snapshot)
    requires Canonical(s)
    ensures DocumentOf(SnapshotJson(s), s)
  {
    var vs := ArrayAt(SnapshotJson(s), Buckets).value;
    forall i | 0 <= i < |s.buckets| ensures Documents(vs[i], s.buckets[i]) {
      BucketIsDocumented(s.buckets[i]);
    }
  }

  predicate Untainted(s: Snapshot) {
    s.owner > 0 && !s.overflow && s.late == 0 && s.incomplete == 0
  }

  /** `v` is a document of snapshot `s`; it may hold more than the reader asks for. */
  ghost predicate DocumentOf(v: Value, s: Snapshot) {
    && Canonical(s)
    && Number(v, OwnerId) == Some(s.owner) && Index(v, Overflow) == Bool(s.overflow)
    && Number(v, LateOperationWrites) == Some(s.late) && Number(v, IncompleteObservations) == Some(s.incomplete)
    && ArrayAt(v, Buckets).Some? && DocumentsAll(ArrayAt(v, Buckets).value, s.buckets)
  }

  /** A document has the expected shape exactly when its snapshot is untainted and has an owner. */
  lemma ShapeReadsUntainted(v: Value, s: Snapshot)
    requires DocumentOf(v, s)
    ensures Shape(v) <==> Untainted(s)
  {
    var vs := ArrayAt(v, Buckets).value;
    forall i | 0 <= i < 18 ensures BucketShape(vs[i], i) {
      assert Documents(vs[i], s.buckets[i]);
    }
  }

  predicate Settled(b: Bucket)
    requires BucketFormed(b)
  {
    b.active == 0 && NothingFailed(b) && Covered(b)
  }

  predicate AllSettled(s: Snapshot)
    requires Canonical(s)
  {
    forall i :: 0 <= i < 18 && s.buckets[i].medium.Persistent? ==> Settled(s.buckets[i])
  }

  lemma IntegrityReadsSettled(v: Value, b: Bucket)
    requires BucketFormed(b) && Documents(v, b)
    ensures BucketIntegrity(v) <==> Settled(b)
    ensures IsPersistent(v) <==> b.medium.Persistent?
    ensures forall c: Counter :: CounterOf(v, c) == b.counters[c]
  {
    assert forall c: Counter :: CounterOf(v, c) == b.counters[c];
  }

  /** The reader accepts a document's integrity exactly when every persistent bucket of its snapshot is settled. */
  lemma IntegrityReadsAllSettled(v: Value, s: Snapshot)
    requires DocumentOf(v, s)
    ensures PersistentIntegrity(v) <==> Untainted(s) && AllSettled(s)
  {
    ShapeReadsUntainted(v, s);
    var vs := ArrayAt(v, Buckets).value;
    forall i | 0 <= i < 18
      ensures IsPersistent(vs[i]) <==> s.buckets[i].medium.Persistent?
      ensures BucketIntegrity(vs[i]) <==> Settled(s.buckets[i])
    {
      assert Documents(vs[i], s.buckets[i]);
      IntegrityReadsSettled(vs[i], s.buckets[i]);
    }
  }

  // ---------------------------------------------------------------- both windows agree

  function Written<T>(x: Option<T>, write: T -> Value): Option<Value> {
    match x
    case None => None
    case Some(t) => Some(write(t))
  }

  lemma SubtractArrays(x: seq<nat>, y: seq<nat>)
    ensures Subtract(NumArr(x), NumArr(y)) == Written(H.Difference(x, y), NumArr)
  {
    var a, b := NumArr(x), NumArr(y);
    if |x| == |y| {
      assert forall i :: 0 <= i < |x| ==> (Subtract(a.items[i], b.items[i]).Some? <==> y[i] <= x[i]);
      if H.Difference(x, y).Some? {
        assert Subtract(a, b).value.items == NumArr(H.Difference(x, y).value).items;
      }
    }
  }

  lemma SubtractObjects(x: map<Key, Value>, y: map<Key, Value>, z: map<Key, Value>)
    requires x.Keys == y.Keys == z.Keys
    requires forall k :: k in x ==> Subtract(x[k], y[k]) == Some(z[k])
    ensures Subtract(Obj(x), Obj(y)) == Some(Obj(z))
  {
    assert |x| == |x.Keys| == |y.Keys| == |y|;
    assert Subtract(Obj(x), Obj(y)).value.fields == z;
  }

  lemma SubtractFails(x: map<Key, Value>, y: map<Key, Value>, k: Key)
    requires k in x && k in y && Subtract(x[k], y[k]).None?
    ensures Subtract(Obj(x), Obj(y)).None?
  {
  }

  lemma SubtractHistograms(x: seq<nat>, y: seq<nat>)
    ensures Subtract(HistogramJson(x), HistogramJson(y)) == Written(H.Difference(x, y), HistogramJson)
  {
    SubtractArrays(x, y);
    var a, b := map[Counts := NumArr(x)], map[Counts := NumArr(y)];
    if H.Difference(x, y).Some? {
      SubtractObjects(a, b, map[Counts := NumArr(H.Difference(x, y).value)]);
    } else {
      assert Counts in a && Subtract(a[Counts], b[Counts]).None?;
    }
  }

  predicate IsCounterField(k: Key) {
    k.CounterKey? || k.IssuedBytes? || k.ReturnedWriteBytes?
  }

  function CounterField(b: Bucket, k: Key): Value
    requires BucketFormed(b) && IsCounterField(k)
  {
    match k
    case CounterKey(c) => Num(b.counters[c])
    case IssuedBytes => NumArr(b.issued)
    case ReturnedWriteBytes => NumArr(b.returned)
  }

  /** `m` is the counter object of bucket `b`. */
  ghost predicate CounterDocument(m: map<Key, Value>, b: Bucket)
    requires BucketFormed(b)
  {
    && (forall k :: k in m <==> IsCounterField(k))
    && (forall k :: k in m ==> m[k] == CounterField(b, k))
  }

  lemma CountersAreDocumented(b: Bucket)
    requires BucketFormed(b)
    ensures CounterDocument(CountersJson(b).fields, b)
  {
    var m := CountersJson(b).fields;
    CounterFields(b);
    forall k: Key | IsCounterField(k) ensures k in m && m[k] == CounterField(b, k) {
      if k.CounterKey? { assert Number(CountersJson(b), CounterKey(k.counter)) == Some(b.counters[k.counter]); }
    }
  }

  lemma SubtractCounterDocuments(x: map<Key, Value>, y: map<Key, Value>, z: map<Key, Value>, a: Bucket, b: Bucket,
                                 d: Bucket)
    requires BucketFormed(a) && BucketFormed(b) && BucketFormed(d)
    requires CounterDocument(x, a) && CounterDocument(y, b) && CounterDocument(z, d)
    requires CounterDifference(a.counters, b.counters) == Some(d.counters)
    requires H.Difference(a.issued, b.issued) == Some(d.issued)
             && H.Difference(a.returned, b.returned) == Some(d.returned)
    ensures Subtract(Obj(x), Obj(y)) == Some(Obj(z))
  {
    SameKeys(x, y, a, b);
    SameKeys(x, z, a, d);
    forall k | k in x ensures Subtract(x[k], y[k]) == Some(z[k]) {
      SubtractFields(a, b, d, k);
    }
    SubtractObjects(x, y, z);
  }

  lemma SubtractFields(a: Bucket, b: Bucket, d: Bucket, k: Key)
    requires BucketFormed(a) && BucketFormed(b) && BucketFormed(d) && IsCounterField(k)
    requires CounterDifference(a.counters, b.counters) == Some(d.counters)
    requires H.Difference(a.issued, b.issued) == Some(d.issued)
             && H.Difference(a.returned, b.returned) == Some(d.returned)
    ensures Subtract(CounterField(a, k), CounterField(b, k)) == Some(CounterField(d, k))
  {
    match k
    case CounterKey(c) => CounterDifferenceAt(a.counters, b.counters, c);
    case IssuedBytes => SubtractArrays(a.issued, b.issued);
    case ReturnedWriteBytes => SubtractArrays(a.returned, b.returned);
  }

  lemma CounterDifferenceAt(after: map<Counter, nat>, before: map<Counter, nat>, c: Counter)
    requires CounterDifference(after, before).Some?
    ensures c in after && c in before && c in CounterDifference(after, before).value
    ensures before[c] <= after[c] && CounterDifference(after, before).value[c] == after[c] - before[c]
  {
  }

  lemma SameKeys(x: map<Key, Value>, y: map<Key, Value>, a: Bucket, b: Bucket)
    requires BucketFormed(a) && BucketFormed(b) && CounterDocument(x, a) && CounterDocument(y, b)
    ensures x.Keys == y.Keys
  {
  }

  /** Two buckets whose counters can be subtracted. */
  predicate CountersGrew(a: Bucket, b: Bucket) {
    && CounterDifference(a.counters, b.counters).Some?
    && H.Difference(a.issued, b.issued).Some? && H.Difference(a.returned, b.returned).Some?
  }

  lemma ShrunkCountersFail(x: map<Key, Value>, y: map<Key, Value>, a: Bucket, b: Bucket)
    requires BucketFormed(a) && BucketFormed(b) && CounterDocument(x, a) && CounterDocument(y, b)
    requires !CountersGrew(a, b)
    ensures Subtract(Obj(x), Obj(y)).None?
  {
    SubtractFails(x, y, ShrunkField(a, b));
  }

  /** A field that shrank, when some field did. */
  ghost function ShrunkField(a: Bucket, b: Bucket): (k: Key)
    requires BucketFormed(a) && BucketFormed(b) && !CountersGrew(a, b)
    ensures IsCounterField(k) && Subtract(CounterField(a, k), CounterField(b, k)).None?
  {
    SubtractArrays(a.issued, b.issued);
    SubtractArrays(a.returned, b.returned);
    if CounterDifference(a.counters, b.counters).None? then
      var c: Counter :| b.counters[c] > a.counters[c];
      CounterKey(c)
    else if H.Difference(a.issued, b.issued).None? then IssuedBytes
    else ReturnedWriteBytes
  }

  /** The difference of two bucket objects, field by field. */
  lemma ObjectWindow(o: Value, m: Value, a: Value, c: Value, k: Value, p: Value, z: Value,
                     o': Value, m': Value, a': Value, c': Value, k': Value, p': Value, z': Value)
    ensures
      BucketWindow(BucketObject(o, m, c, k, p, z, a), BucketObject(o', m', c', k', p', z', a')) ==
      if Subtract(c, c').Some? && Subtract(k, k').Some? && Subtract(p, p').Some? && Subtract(z, z').Some?
      then Some(BucketObject(o, m, Subtract(c, c').value, Subtract(k, k').value, Subtract(p, p').value,
                             Subtract(z, z').value, a))
      else None
  {
    BucketFields(o, m, c, k, p, z, a);
    BucketFields(o', m', c', k', p', z', a');
    if Subtract(c, c').Some? && Subtract(k, k').Some? && Subtract(p, p').Some? && Subtract(z, z').Some? {
      Overridden(map[OriginKey := o, MediumKey := m, ActiveOperations := a], Measures(c, k, p, z),
                 Measures(Subtract(c, c').value, Subtract(k, k').value, Subtract(p, p').value, Subtract(z, z').value));
    }
  }

  lemma Overridden(f: map<Key, Value>, u: map<Key, Value>, v: map<Key, Value>)
    requires u.Keys == v.Keys
    ensures f + u + v == f + v
  {
  }

  lemma SubtractCounters(a: Bucket, b: Bucket)
    requires BucketFormed(a) && BucketFormed(b)
    ensures Subtract(CountersJson(a), CountersJson(b)).Some? <==> CountersGrew(a, b)
  {
    CountersAreDocumented(a);
    CountersAreDocumented(b);
    if CountersGrew(a, b) {
      var d := a.(counters := CounterDifference(a.counters, b.counters).value,
                  issued := H.Difference(a.issued, b.issued).value,
                  returned := H.Difference(a.returned, b.returned).value);
      SubtractedCounters(a, b, d);
    } else {
      ShrunkCountersFail(CountersJson(a).fields, CountersJson(b).fields, a, b);
    }
  }

  lemma SubtractedCounters(a: Bucket, b: Bucket, d: Bucket)
    requires BucketFormed(a) && BucketFormed(b) && BucketFormed(d)
    requires CounterDifference(a.counters, b.counters) == Some(d.counters)
    requires H.Difference(a.issued, b.issued) == Some(d.issued)
             && H.Difference(a.returned, b.returned) == Some(d.returned)
    ensures Subtract(CountersJson(a), CountersJson(b)) == Some(CountersJson(d))
  {
    CountersAreDocumented(a);
    CountersAreDocumented(b);
    CountersAreDocumented(d);
    SubtractCounterDocuments(CountersJson(a).fields, CountersJson(b).fields, CountersJson(d).fields, a, b, d);
  }

  lemma DifferenceParts(a: Bucket, b: Bucket)
    requires BucketFormed(a) && BucketFormed(b) && a.origin == b.origin && a.medium == b.medium
    ensures BucketDifference(a, b).Some? <==>
            && CountersGrew(a, b) && H.Difference(a.checkpoint, b.checkpoint).Some?
            && H.Difference(a.publication, b.publication).Some? && H.Difference(a.sizes, b.sizes).Some?
    ensures BucketDifference(a, b).Some? ==>
              var d := BucketDifference(a, b).value;
              && BucketFormed(d) && d.origin == a.origin && d.medium == a.medium && d.active == a.active
              && CounterDifference(a.counters, b.counters) == Some(d.counters)
              && H.Difference(a.issued, b.issued) == Some(d.issued)
              && H.Difference(a.returned, b.returned) == Some(d.returned)
              && H.Difference(a.checkpoint, b.checkpoint) == Some(d.checkpoint)
              && H.Difference(a.publication, b.publication) == Some(d.publication)
              && H.Difference(a.sizes, b.sizes) == Some(d.sizes)
  {
  }

  /** One bucket: the reader's difference of the documents is the document of the engine's difference. */
  lemma BucketWindowsAgree(a: Bucket, b: Bucket)
    requires BucketFormed(a) && BucketFormed(b) && a.origin == b.origin && a.medium == b.medium
    ensures BucketWindow(BucketJson(a), BucketJson(b)) == Written(BucketDifference(a, b), BucketJson)
  {
    var o, m := Str(OriginText(a.origin)), Str(MediumText(a.medium));
    ObjectWindow(o, m, Num(a.active), CountersJson(a), HistogramJson(a.checkpoint), HistogramJson(a.publication),
                 NumArr(a.sizes),
                 o, m, Num(b.active), CountersJson(b), HistogramJson(b.checkpoint), HistogramJson(b.publication),
                 NumArr(b.sizes));
    SubtractHistograms(a.checkpoint, b.checkpoint);
    SubtractHistograms(a.publication, b.publication);
    SubtractArrays(a.sizes, b.sizes);
    SubtractCounters(a, b);
    DifferenceParts(a, b);
    if BucketDifference(a, b).Some? {
      SubtractedCounters(a, b, BucketDifference(a, b).value);
    }
  }

  lemma SnapshotFields(owner: Value, buckets: Value, overflow: Value, late: Value, incomplete: Value, buckets': Value)
    ensures
      var v := SnapshotObject(owner, buckets, overflow, late, incomplete);
      && Index(v, OwnerId) == owner && Index(v, Buckets) == buckets
      && v.fields[Buckets := buckets'] == SnapshotObject(owner, buckets', overflow, late, incomplete).fields
  {
  }

  lemma ShapedBuckets(s: Value, buckets: seq<Value>)
    requires Shape(s) && Index(s, Buckets) == Arr(buckets)
    ensures |buckets| == 18 && forall i :: 0 <= i < 18 ==> buckets[i].Obj?
  {
    forall i | 0 <= i < 18 ensures buckets[i].Obj? { assert BucketShape(buckets[i], i); }
  }

  lemma AllHaveWindows(a: seq<Value>, b: seq<Value>)
    requires |a| == |b| == 18 && forall i :: 0 <= i < 18 ==> a[i].Obj?
    ensures BucketWindows(a, b).Some? <==> forall i :: 0 <= i < 18 ==> BucketWindow(a[i], b[i]).Some?
  {
    if BucketWindows(a, b).Some? {
      forall i | 0 <= i < 18 ensures BucketWindow(a[i], b[i]).Some? { assert HasWindow(a[i], b[i]); }
    }
  }

  /** A window of two snapshot objects whose bucket windows are known. */
  lemma WindowOfParts(after: Value, before: Value, a: seq<Value>, b: seq<Value>)
    requires Shape(after) && Shape(before)
    requires Index(after, Buckets) == Arr(a) && Index(before, Buckets) == Arr(b)
    ensures |a| == |b| == 18 && forall i :: 0 <= i < 18 ==> a[i].Obj?
    ensures Window(after, before).Some? <==>
            && Index(after, OwnerId) == Index(before, OwnerId)
            && forall i :: 0 <= i < 18 ==> BucketWindow(a[i], b[i]).Some?
  {
    ShapedBuckets(after, a);
    ShapedBuckets(before, b);
    AllHaveWindows(a, b);
  }

  lemma WindowIs(after: Value, before: Value, a: seq<Value>, b: seq<Value>, d: seq<Value>)
    requires Index(after, Buckets) == Arr(a) && Index(before, Buckets) == Arr(b) && |a| == |b| == |d| == 18
    requires Window(after, before).Some?
    requires forall i :: 0 <= i < 18 ==> a[i].Obj? && BucketWindow(a[i], b[i]) == Some(d[i])
    ensures Window(after, before) == Some(Obj(after.fields[Buckets := Arr(d)]))
  {
    assert BucketWindows(a, b).value == d;
  }

  /**
    Both windows agree: on untainted snapshots the reader's window exists
    exactly when the engine's does, and is its document; a tainted snapshot on
    either side is refused.
   */
  lemma WindowsAgree(after: Snapshot, before: Snapshot)
    requires Canonical(after) && Canonical(before)
    ensures Window(SnapshotJson(after), SnapshotJson(before)) ==
            if Untainted(after) && Untainted(before) then Written(Delta(after, before), SnapshotJson) else None
  {
    SnapshotIsDocumented(after);
    SnapshotIsDocumented(before);
    ShapeReadsUntainted(SnapshotJson(after), after);
    ShapeReadsUntainted(SnapshotJson(before), before);
    if Untainted(after) && Untainted(before) {
      var x, y := SnapshotJson(after), SnapshotJson(before);
      var a, b := BucketsJson(after.buckets).items, BucketsJson(before.buckets).items;
      SnapshotFields(Num(after.owner), Arr(a), Bool(after.overflow), Num(after.late), Num(after.incomplete), Null);
      SnapshotFields(Num(before.owner), Arr(b), Bool(before.overflow), Num(before.late), Num(before.incomplete), Null);
      WindowOfParts(x, y, a, b);
      forall i | 0 <= i < 18
        ensures BucketWindow(a[i], b[i]) ==
                Written(BucketDifference(after.buckets[i], before.buckets[i]), BucketJson)
      {
        BucketWindowsAgree(after.buckets[i], before.buckets[i]);
      }
      if Delta(after, before).Some? {
        var d := Delta(after, before).value;
        var items := BucketsJson(d.buckets).items;
        SnapshotFields(Num(after.owner), Arr(a), Bool(after.overflow), Num(after.late), Num(after.incomplete),
                       Arr(items));
        forall i | 0 <= i < 18 ensures BucketWindow(a[i], b[i]) == Some(items[i]) {
        }
        WindowIs(x, y, a, b, items);
      }
    }
  }

  // ---------------------------------------------------------------- windows telescope

  /** The fields of a bucket that a window replaces by differences. */
  predicate IsMeasure(k: Key) {
    k.Counters? || k.CheckpointLatency? || k.FullPublicationLatency? || k.CommittedSstSizeLog2?
  }

  lemma MeasureOfWindow(after: Value, before: Value, k: Key)
    requires after.Obj? && IsMeasure(k)
    ensures BucketWindow(after, before).Some? ==>
              && Subtract(Index(after, k), Index(before, k)).Some?
              && Index(BucketWindow(after, before).value, k) == Subtract(Index(after, k), Index(before, k)).value
  {
  }

  lemma WindowExistsByMeasures(after: Value, before: Value)
    requires after.Obj? && forall k :: IsMeasure(k) ==> Subtract(Index(after, k), Index(before, k)).Some?
    ensures BucketWindow(after, before).Some?
  {
    assert IsMeasure(Counters) && IsMeasure(CheckpointLatency);
    assert IsMeasure(FullPublicationLatency) && IsMeasure(CommittedSstSizeLog2);
  }

  /** The measures of `whole` are those of `late` and `early` together. */
  ghost predicate AddsUp(whole: Value, late: Value, early: Value) {
    forall k :: IsMeasure(k) ==>
      Alike(Index(late, k), Index(early, k)) && Index(whole, k) == Plus(Index(late, k), Index(early, k))
  }

  lemma BucketWindowsTelescope(settled: Value, after: Value, before: Value)
    requires settled.Obj? && after.Obj?
    requires BucketWindow(settled, after).Some? && BucketWindow(after, before).Some?
    ensures BucketWindow(settled, before).Some?
    ensures AddsUp(BucketWindow(settled, before).value, BucketWindow(settled, after).value,
                   BucketWindow(after, before).value)
  {
    forall k | IsMeasure(k) ensures MeasureTelescopes(settled, after, before, k) {
      MeasuresTelescope(settled, after, before, k);
    }
    forall k | IsMeasure(k) ensures Subtract(Index(settled, k), Index(before, k)).Some? {
      assert MeasureTelescopes(settled, after, before, k);
    }
    WindowExistsByMeasures(settled, before);
    forall k | IsMeasure(k)
      ensures
        && Alike(Index(BucketWindow(settled, after).value, k), Index(BucketWindow(after, before).value, k))
        && Index(BucketWindow(settled, before).value, k) ==
           Plus(Index(BucketWindow(settled, after).value, k), Index(BucketWindow(after, before).value, k))
    {
      assert MeasureTelescopes(settled, after, before, k);
      MeasureOfWindow(settled, before, k);
      MeasureOfWindow(settled, after, k);
      MeasureOfWindow(after, before, k);
    }
  }

  ghost predicate MeasureTelescopes(settled: Value, after: Value, before: Value, k: Key) {
    var x, y := Subtract(Index(settled, k), Index(after, k)), Subtract(Index(after, k), Index(before, k));
    && x.Some? && y.Some? && Alike(x.value, y.value)
    && Subtract(Index(settled, k), Index(before, k)) == Some(Plus(x.value, y.value))
  }

  lemma MeasuresTelescope(settled: Value, after: Value, before: Value, k: Key)
    requires settled.Obj? && after.Obj? && IsMeasure(k)
    requires BucketWindow(settled, after).Some? && BucketWindow(after, before).Some?
    ensures MeasureTelescopes(settled, after, before, k)
  {
    MeasureOfWindow(settled, after, k);
    MeasureOfWindow(after, before, k);
    SubtractionsTelescope(Index(settled, k), Index(after, k), Index(before, k));
  }

  lemma SubtractionsTelescope(settled: Value, after: Value, before: Value)
    requires Subtract(settled, after).Some? && Subtract(after, before).Some?
    ensures Alike(Subtract(settled, after).value, Subtract(after, before).value)
    ensures Subtract(settled, before) ==
            Some(Plus(Subtract(settled, after).value, Subtract(after, before).value))
  {
    SubtractSucceedsExactly(settled, after);
    SubtractSucceedsExactly(after, before);
    DifferencesTelescope(settled, after, before);
    SubtractSucceedsExactly(settled, before);
  }

  /** The buckets of a window are the windows of the buckets. */
  lemma WindowBuckets(after: Value, before: Value, i: nat)
    requires Window(after, before).Some? && i < 18
    ensures Shape(after) && Shape(before)
    ensures
      var a, b := ArrayAt(after, Buckets).value[i], ArrayAt(before, Buckets).value[i];
      && a.Obj? && BucketWindow(a, b).Some?
      && ArrayAt(Window(after, before).value, Buckets).Some?
      && |ArrayAt(Window(after, before).value, Buckets).value| == 18
      && ArrayAt(Window(after, before).value, Buckets).value[i] == BucketWindow(a, b).value
  {
    assert BucketShape(ArrayAt(after, Buckets).value[i], i);
  }

  /** Bucket `i` of a document. */
  function BucketAt(s: Value, i: nat): Value {
    var buckets := ArrayAt(s, Buckets);
    if buckets.Some? && i < |buckets.value| then buckets.value[i] else Null
  }

  /**
    Windows of whole documents telescope: when the two inner windows exist so
    does the outer one, and in each of its eighteen buckets every measure is the
    sum of theirs.
   */
  lemma WindowsTelescope(settled: Value, after: Value, before: Value)
    requires Window(settled, after).Some? && Window(after, before).Some?
    ensures Window(settled, before).Some?
    ensures forall i :: 0 <= i < 18 ==>
              AddsUp(BucketAt(Window(settled, before).value, i), BucketAt(Window(settled, after).value, i),
                     BucketAt(Window(after, before).value, i))
  {
    WindowBuckets(settled, after, 0);
    WindowBuckets(after, before, 0);
    var s, b := ArrayAt(settled, Buckets).value, ArrayAt(before, Buckets).value;
    forall i | 0 <= i < 18 ensures s[i].Obj? && BucketWindow(s[i], b[i]).Some? {
      BucketTelescopes(settled, after, before, i);
    }
    WindowOfParts(settled, before, s, b);
    forall i | 0 <= i < 18
      ensures AddsUp(BucketAt(Window(settled, before).value, i), BucketAt(Window(settled, after).value, i),
                     BucketAt(Window(after, before).value, i))
    {
      BucketTelescopes(settled, after, before, i);
      WindowBuckets(settled, before, i);
    }
  }

  lemma BucketTelescopes(settled: Value, after: Value, before: Value, i: nat)
    requires Window(settled, after).Some? && Window(after, before).Some? && i < 18
    ensures Shape(settled) && Shape(before)
    ensures
      var s, b := ArrayAt(settled, Buckets).value[i], ArrayAt(before, Buckets).value[i];
      && s.Obj? && BucketWindow(s, b).Some?
      && AddsUp(BucketWindow(s, b).value, BucketAt(Window(settled, after).value, i),
                BucketAt(Window(after, before).value, i))
  {
    WindowBuckets(settled, after, i);
    WindowBuckets(after, before, i);
    BucketWindowsTelescope(ArrayAt(settled, Buckets).value[i], ArrayAt(after, Buckets).value[i],
                           ArrayAt(before, Buckets).value[i]);
  }
}
