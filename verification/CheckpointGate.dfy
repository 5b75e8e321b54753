/** The measured run's own verdict, its sealing after shutdown, and its agreement with the independent reader. */
module CheckpointGate {
  import opened Basics
  import opened CounterTree
  import opened Accounting
  import opened AccountingJson
  import H = Histogram

  datatype Fault =
    | CrossesEnd
    | FailedOrAbandoned
    | NotTruncated
    | DurabilityDiffers
    | CheckpointsUncovered
    | PublicationsUncovered
    | SizesUncovered

  datatype Reason =
    | Tainted
    | FlushCountDiffers
    | Faulty(origin: Origin, fault: Fault)
    | ZeroDenominator
    | NoCompaction
    | UnclassifiedCost
    | AnotherOwner
    | TaintedAfterShutdown
    | ActiveAfterShutdown

  // ---------------------------------------------------------------- reasons

  function When(condition: bool, reason: Reason): seq<Reason> {
    if condition then [reason] else []
  }

  predicate HasFault(b: Bucket, f: Fault)
    requires BucketFormed(b)
  {
    match f
    case CrossesEnd => b.active > 0
    case FailedOrAbandoned => b.counters[OperationFailures] > 0 || b.counters[AbandonedOperations] > 0
    case NotTruncated => b.counters[CheckpointAttempts] != b.counters[CheckpointCompleteCount]
    case DurabilityDiffers => b.counters[SnapshotDurableCount] != b.counters[CheckpointCompleteCount]
    case CheckpointsUncovered => H.Sum(b.checkpoint) != b.counters[CheckpointAttempts]
    case PublicationsUncovered => H.Sum(b.publication) != b.counters[FlushCommittedCount]
    case SizesUncovered => H.Sum(b.sizes) != b.counters[FlushCommittedCount]
  }

  function WithFault(invalid: seq<Reason>, b: Bucket, f: Fault): seq<Reason>
    requires BucketFormed(b)
  {
    invalid + When(HasFault(b, f), Faulty(b.origin, f))
  }

  function WithBucket(invalid: seq<Reason>, b: Bucket): seq<Reason>
    requires BucketFormed(b)
  {
    var failures := WithFault(WithFault(invalid, b, CrossesEnd), b, FailedOrAbandoned);
    var checkpoints := WithFault(WithFault(failures, b, NotTruncated), b, DurabilityDiffers);
    WithFault(WithFault(WithFault(checkpoints, b, CheckpointsUncovered), b, PublicationsUncovered), b, SizesUncovered)
  }

  /** The reasons extended by the faults of the first `n` buckets; memory-only buckets are skipped. */
  function WithPersistent(invalid: seq<Reason>, s: Snapshot, n: nat): seq<Reason>
    requires Canonical(s) && n <= 18
    decreases n, s
  {
    if n == 0 then invalid
    else
      var earlier := WithPersistent(invalid, s, n - 1);
      if s.buckets[n - 1].medium.Persistent? then WithBucket(earlier, s.buckets[n - 1]) else earlier
  }

  predicate Escaped(s: Snapshot) {
    s.overflow || s.late > 0 || s.incomplete > 0
  }

  predicate UnclassifiedWork(b: Bucket)
    requires BucketFormed(b)
  {
    b.origin.Unclassified? && (b.counters[OperationAttempts] > 0 || b.counters[FlushCommittedCount] > 0)
  }

  predicate AnyUnclassifiedWork(d: Snapshot)
    requires Canonical(d)
  {
    exists i :: 0 <= i < 18 && UnclassifiedWork(d.buckets[i])
  }

  predicate AnyActive(s: Snapshot)
    requires Canonical(s)
  {
    exists i :: 0 <= i < 18 && s.buckets[i].active > 0
  }

  function EvaluationReasons(d: Snapshot, expectedFlushes: nat, compactions: nat): seq<Reason>
    requires Canonical(d)
  {
    var c := d.buckets[0].counters;
    WithPersistent(When(Escaped(d), Tainted)
                   + When(c[FlushCommittedCount] != expectedFlushes, FlushCountDiffers), d, 18)
    + When(c[FlushCommittedSstBytes] == 0 || c[FlushFullPublicationElapsedNs] == 0, ZeroDenominator)
    + When(compactions == 0, NoCompaction)
    + When(AnyUnclassifiedWork(d), UnclassifiedCost)
  }

  function SettlementReasons(expectedOwner: nat, settled: Snapshot): seq<Reason>
    requires Canonical(settled)
  {
    WithPersistent(When(settled.owner != expectedOwner, AnotherOwner)
                   + When(Escaped(settled), TaintedAfterShutdown)
                   + When(AnyActive(settled), ActiveAfterShutdown), settled, 18)
  }

  function Misses(d: Snapshot): Gate
    requires Canonical(d)
  {
    var b := d.buckets[0];
    Judge(b.issued[0], b.counters[FlushCommittedSstBytes], b.counters[CheckpointElapsedNs],
          b.counters[FlushFullPublicationElapsedNs], H.P95Bounds(b.checkpoint))
  }

  // ---------------------------------------------------------------- the verdict

  method CheckBucket(b: Bucket, invalid: seq<Reason>) returns (reasons: seq<Reason>)
    requires BucketFormed(b)
    ensures reasons == WithBucket(invalid, b)
  {
    var c := b.counters;
    reasons := Push(invalid, b.active > 0, Faulty(b.origin, CrossesEnd));
    reasons := Push(reasons, c[OperationFailures] > 0 || c[AbandonedOperations] > 0,
                    Faulty(b.origin, FailedOrAbandoned));
    reasons := Push(reasons, c[CheckpointAttempts] != c[CheckpointCompleteCount], Faulty(b.origin, NotTruncated));
    reasons := Push(reasons, c[SnapshotDurableCount] != c[CheckpointCompleteCount],
                    Faulty(b.origin, DurabilityDiffers));
    var checkpoints := Total(b.checkpoint);
    var publications := Total(b.publication);
    var sizes := Total(b.sizes);
    reasons := Push(reasons, checkpoints != c[CheckpointAttempts], Faulty(b.origin, CheckpointsUncovered));
    reasons := Push(reasons, publications != c[FlushCommittedCount], Faulty(b.origin, PublicationsUncovered));
    reasons := Push(reasons, sizes != c[FlushCommittedCount], Faulty(b.origin, SizesUncovered));
  }

  method Push(invalid: seq<Reason>, condition: bool, reason: Reason) returns (reasons: seq<Reason>)
    ensures reasons == invalid + When(condition, reason)
  {
    reasons := invalid;
    if condition { reasons := reasons + [reason]; }
  }

  method Total(counts: seq<nat>) returns (sum: nat)
    ensures sum == H.Sum(counts)
  {
    sum := 0;
    for i := 0 to |counts|
      invariant sum == H.PrefixSum(counts, i)
    {
      sum := sum + counts[i];
    }
  }

  method CheckPersistentOperations(s: Snapshot, invalid: seq<Reason>) returns (reasons: seq<Reason>)
    requires Canonical(s)
    ensures reasons == WithPersistent(invalid, s, 18)
  {
    reasons := invalid;
    for i := 0 to 18
      invariant reasons == WithPersistent(invalid, s, i)
    {
      if s.buckets[i].medium.Persistent? { reasons := CheckBucket(s.buckets[i], reasons); }
    }
  }

  method CheckWindow(delta: Snapshot, expectedFlushes: nat, compactions: nat) returns (invalid: seq<Reason>)
    requires Canonical(delta)
    ensures invalid == EvaluationReasons(delta, expectedFlushes, compactions)
  {
    var c := delta.buckets[0].counters;
    invalid := When(delta.overflow || delta.late > 0 || delta.incomplete > 0, Tainted);
    invalid := Push(invalid, c[FlushCommittedCount] != expectedFlushes, FlushCountDiffers);
    invalid := CheckPersistentOperations(delta, invalid);
    invalid := Push(invalid, c[FlushCommittedSstBytes] == 0 || c[FlushFullPublicationElapsedNs] == 0, ZeroDenominator);
    invalid := Push(invalid, compactions == 0, NoCompaction);
    invalid := Push(invalid, AnyUnclassifiedWork(delta), UnclassifiedCost);
  }

  method Measure(delta: Snapshot) returns (gate: Gate)
    requires Canonical(delta)
    ensures gate == Misses(delta)
  {
    var b := delta.buckets[0];
    var c := b.counters;
    var p95 := H.P95(b.checkpoint);
    var snapshotMiss := b.issued[0] * 100 >= c[FlushCommittedSstBytes] * 5;
    var checkpointMiss :=
      && c[CheckpointElapsedNs] * 100 >= c[FlushFullPublicationElapsedNs] * 20
      && p95.value.Some? && p95.value.value.0 >= 5_000_000;
    gate := Gate(snapshotMiss, checkpointMiss, snapshotMiss || checkpointMiss, p95.value);
  }

  class Verdict {
    var valid: bool
    var reasons: seq<Reason>
    var snapshotMiss: bool
    var checkpointMiss: bool
    var miss: Option<bool>
    var p95: Option<(nat, nat)>

    /** A miss is reported exactly by a valid verdict, and validity is the absence of reasons. */
    predicate Coherent()
      reads this
    {
      && valid == (reasons == [])
      && miss == (if valid then Some(snapshotMiss || checkpointMiss) else None)
    }

    constructor (delta: Snapshot, expectedFlushes: nat, compactions: nat)
      requires Canonical(delta)
      ensures Coherent() && reasons == EvaluationReasons(delta, expectedFlushes, compactions)
      ensures snapshotMiss == Misses(delta).snapshotMiss && checkpointMiss == Misses(delta).checkpointMiss
      ensures p95 == Misses(delta).p95
    {
      var invalid := CheckWindow(delta, expectedFlushes, compactions);
      var gate := Measure(delta);
      valid, reasons := invalid == [], invalid;
      snapshotMiss, checkpointMiss, p95 := gate.snapshotMiss, gate.checkpointMiss, gate.p95;
      miss := if invalid == [] then Some(gate.snapshotMiss || gate.checkpointMiss) else None;
    }

    /** Adds what the settled owner reveals; the measured ratios stay as they were. */
    method Seal(expectedOwner: nat, settled: Snapshot)
      requires Canonical(settled)
      modifies this
      ensures Coherent() && reasons == old(reasons) + SettlementReasons(expectedOwner, settled)
      ensures snapshotMiss == old(snapshotMiss) && checkpointMiss == old(checkpointMiss) && p95 == old(p95)
    {
      var found := When(settled.owner != expectedOwner, AnotherOwner);
      found := Push(found, settled.overflow || settled.late > 0 || settled.incomplete > 0, TaintedAfterShutdown);
      found := Push(found, AnyActive(settled), ActiveAfterShutdown);
      found := CheckPersistentOperations(settled, found);
      reasons := reasons + found;
      valid := reasons == [];
      miss := if valid then Some(snapshotMiss || checkpointMiss) else None;
    }
  }

  /**
    The run's final verdict. It is valid, and names a miss, exactly when the
    window and both settled owners are free of reasons; the ratios are those of
    the window alone.
   */
  method FinalVerdict(delta: Snapshot, expectedFlushes: nat, compactions: nat, reopenedOwner: nat, reopened: Snapshot,
                      original: Snapshot)
    returns (v: Verdict)
    requires Canonical(delta) && Canonical(reopened) && Canonical(original)
    ensures fresh(v) && v.Coherent()
    ensures v.valid <==>
            && EvaluationReasons(delta, expectedFlushes, compactions) == []
            && SettlementReasons(reopenedOwner, reopened) == [] && SettlementReasons(delta.owner, original) == []
    ensures v.miss == if v.valid then Some(Misses(delta).miss) else None
    ensures v.snapshotMiss == Misses(delta).snapshotMiss && v.checkpointMiss == Misses(delta).checkpointMiss
    ensures v.p95 == Misses(delta).p95
  {
    v := new Verdict(delta, expectedFlushes, compactions);
    v.Seal(reopenedOwner, reopened);
    v.Seal(delta.owner, original);
  }

  datatype Settlement = Settlement(owner: nat, settled: Snapshot)

  /** The reasons after any number of seals, in turn. */
  function Sealed(reasons: seq<Reason>, seals: seq<Settlement>): seq<Reason>
    requires forall i :: 0 <= i < |seals| ==> Canonical(seals[i].settled)
  {
    if seals == [] then reasons
    else
      var last := seals[|seals| - 1];
      Sealed(reasons, seals[..|seals| - 1]) + SettlementReasons(last.owner, last.settled)
  }

  /** Sealing never withdraws a reason: a verdict stays valid exactly while every seal found nothing. */
  lemma {:induction false} SealsOnlyAdd(reasons: seq<Reason>, seals: seq<Settlement>)
    requires forall i :: 0 <= i < |seals| ==> Canonical(seals[i].settled)
    ensures reasons <= Sealed(reasons, seals)
    ensures Sealed(reasons, seals) == [] <==>
            reasons == [] && forall i :: 0 <= i < |seals| ==> SettlementReasons(seals[i].owner, seals[i].settled) == []
  {
    if seals != [] {
      SealsOnlyAdd(reasons, seals[..|seals| - 1]);
      assert seals == seals[..|seals| - 1] + [seals[|seals| - 1]];
    }
  }

  // ---------------------------------------------------------------- reasons name exactly the faulty buckets

  lemma BucketReasonsNameFaults(invalid: seq<Reason>, b: Bucket, r: Reason)
    requires BucketFormed(b)
    ensures r in WithBucket(invalid, b) <==> r in invalid || (r.Faulty? && r.origin == b.origin && HasFault(b, r.fault))
  {
    var failures := WithFault(WithFault(invalid, b, CrossesEnd), b, FailedOrAbandoned);
    var checkpoints := WithFault(WithFault(failures, b, NotTruncated), b, DurabilityDiffers);
    TwoFaults(invalid, b, CrossesEnd, FailedOrAbandoned, r);
    TwoFaults(failures, b, NotTruncated, DurabilityDiffers, r);
    TwoFaults(checkpoints, b, CheckpointsUncovered, PublicationsUncovered, r);
  }

  lemma TwoFaults(invalid: seq<Reason>, b: Bucket, f: Fault, g: Fault, r: Reason)
    requires BucketFormed(b)
    ensures r in WithFault(WithFault(invalid, b, f), b, g) <==>
            || r in invalid
            || (r == Faulty(b.origin, f) && HasFault(b, f))
            || (r == Faulty(b.origin, g) && HasFault(b, g))
  {
  }

  /** A persistent bucket among the first `n` has the fault. */
  predicate FaultAmong(s: Snapshot, n: nat, o: Origin, f: Fault)
    requires Canonical(s) && n <= 18
  {
    exists i :: 0 <= i < n && s.buckets[i].medium.Persistent? && s.buckets[i].origin == o && HasFault(s.buckets[i], f)
  }

  lemma {:induction false} PersistentReasonsNameFaults(invalid: seq<Reason>, s: Snapshot, n: nat, r: Reason)
    requires Canonical(s) && n <= 18
    ensures r in WithPersistent(invalid, s, n) <==> r in invalid || (r.Faulty? && FaultAmong(s, n, r.origin, r.fault))
    decreases n
  {
    if n > 0 {
      PersistentReasonsNameFaults(invalid, s, n - 1, r);
      if s.buckets[n - 1].medium.Persistent? {
        BucketReasonsNameFaults(WithPersistent(invalid, s, n - 1), s.buckets[n - 1], r);
      }
    }
  }

  lemma OriginOfSlot(i: nat, o: Origin)
    requires i < 18 && i % 2 == 0 && ORIGINS[i / 2] == o
    ensures i == Slot(o, Persistent)
  {
  }

  /** An origin has one persistent bucket, so a fault among all of them is its fault. */
  lemma FaultOfOrigin(s: Snapshot, o: Origin, f: Fault)
    requires Canonical(s)
    ensures FaultAmong(s, 18, o, f) <==> HasFault(s.buckets[Slot(o, Persistent)], f)
  {
    var i := Slot(o, Persistent);
    assert s.buckets[i].origin == o && s.buckets[i].medium == Persistent;
    forall j | 0 <= j < 18 && s.buckets[j].medium.Persistent? && s.buckets[j].origin == o ensures j == i {
      OriginOfSlot(j, o);
    }
  }

  /** A fault is reported for an origin exactly when that origin's persistent bucket has it. */
  lemma FaultIsReportedExactly(invalid: seq<Reason>, s: Snapshot, o: Origin, f: Fault)
    requires Canonical(s) && Faulty(o, f) !in invalid
    ensures Faulty(o, f) in WithPersistent(invalid, s, 18) <==> HasFault(s.buckets[Slot(o, Persistent)], f)
  {
    PersistentReasonsNameFaults(invalid, s, 18, Faulty(o, f));
    FaultOfOrigin(s, o, f);
  }

  /** What each reason against a window says. */
  predicate WindowFault(r: Reason, d: Snapshot, expectedFlushes: nat, compactions: nat)
    requires Canonical(d)
  {
    var c := d.buckets[0].counters;
    match r
    case Tainted => d.overflow || d.late > 0 || d.incomplete > 0
    case FlushCountDiffers => c[FlushCommittedCount] != expectedFlushes
    case Faulty(o, f) => HasFault(d.buckets[Slot(o, Persistent)], f)
    case ZeroDenominator => c[FlushCommittedSstBytes] == 0 || c[FlushFullPublicationElapsedNs] == 0
    case NoCompaction => compactions == 0
    case UnclassifiedCost => AnyUnclassifiedWork(d)
    case _ => false
  }

  /** Each reason is given exactly for its own cause, and no others are. */
  lemma EvaluationReasonsExactly(d: Snapshot, expectedFlushes: nat, compactions: nat, r: Reason)
    requires Canonical(d)
    ensures r in EvaluationReasons(d, expectedFlushes, compactions) <==> WindowFault(r, d, expectedFlushes, compactions)
  {
    var invalid := When(Escaped(d), Tainted)
                   + When(d.buckets[0].counters[FlushCommittedCount] != expectedFlushes, FlushCountDiffers);
    PersistentReasonsNameFaults(invalid, d, 18, r);
    if r.Faulty? { FaultOfOrigin(d, r.origin, r.fault); }
  }

  /** What each reason against a settled owner says. */
  predicate OwnerFault(r: Reason, owner: nat, s: Snapshot)
    requires Canonical(s)
  {
    match r
    case AnotherOwner => s.owner != owner
    case TaintedAfterShutdown => s.overflow || s.late > 0 || s.incomplete > 0
    case ActiveAfterShutdown => exists i :: 0 <= i < 18 && s.buckets[i].active > 0
    case Faulty(o, f) => HasFault(s.buckets[Slot(o, Persistent)], f)
    case _ => false
  }

  lemma SettlementReasonsExactly(owner: nat, s: Snapshot, r: Reason)
    requires Canonical(s)
    ensures r in SettlementReasons(owner, s) <==> OwnerFault(r, owner, s)
  {
    var invalid := When(s.owner != owner, AnotherOwner) + When(Escaped(s), TaintedAfterShutdown)
                   + When(AnyActive(s), ActiveAfterShutdown);
    PersistentReasonsNameFaults(invalid, s, 18, r);
    if r.Faulty? { FaultOfOrigin(s, r.origin, r.fault); }
  }

  lemma NoFaultIsSettled(b: Bucket)
    requires BucketFormed(b)
    ensures Settled(b) <==> forall f :: !HasFault(b, f)
  {
    if forall f :: !HasFault(b, f) {
      assert !HasFault(b, CrossesEnd) && !HasFault(b, FailedOrAbandoned) && !HasFault(b, NotTruncated);
      assert !HasFault(b, DurabilityDiffers) && !HasFault(b, CheckpointsUncovered);
      assert !HasFault(b, PublicationsUncovered) && !HasFault(b, SizesUncovered);
    }
  }

  lemma SettledHasNoFault(s: Snapshot, o: Origin, f: Fault)
    requires Canonical(s) && AllSettled(s)
    ensures !FaultAmong(s, 18, o, f)
  {
  }

  lemma UnsettledHasFault(s: Snapshot) returns (r: Reason)
    requires Canonical(s) && !AllSettled(s)
    ensures r.Faulty? && FaultAmong(s, 18, r.origin, r.fault)
  {
    var i :| 0 <= i < 18 && s.buckets[i].medium.Persistent? && !Settled(s.buckets[i]);
    NoFaultIsSettled(s.buckets[i]);
    var f :| HasFault(s.buckets[i], f);
    r := Faulty(s.buckets[i].origin, f);
  }

  /** No reason is added exactly when every persistent bucket is settled. */
  lemma NoReasonsMeansSettled(invalid: seq<Reason>, s: Snapshot)
    requires Canonical(s)
    ensures WithPersistent(invalid, s, 18) == [] <==> invalid == [] && AllSettled(s)
  {
    var reasons := WithPersistent(invalid, s, 18);
    if invalid != [] {
      PersistentReasonsNameFaults(invalid, s, 18, invalid[0]);
    } else if !AllSettled(s) {
      var r := UnsettledHasFault(s);
      PersistentReasonsNameFaults(invalid, s, 18, r);
    } else if reasons != [] {
      PersistentReasonsNameFaults(invalid, s, 18, reasons[0]);
      SettledHasNoFault(s, reasons[0].origin, reasons[0].fault);
    }
  }
}
