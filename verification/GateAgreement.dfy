/** The run's verdict and the independent reader's agree, and a clean run passes both. */
module GateAgreement {
  import opened Basics
  import opened CounterTree
  import opened Accounting
  import opened AccountingJson
  import opened CheckpointGate
  import H = Histogram

  // ---------------------------------------------------------------- the same gate

  lemma AcceptedExactly(d: Snapshot, expectedFlushes: nat, compactions: nat)
    requires Canonical(d)
    ensures EvaluationReasons(d, expectedFlushes, compactions) == [] <==>
            && !Escaped(d) && AllSettled(d) && compactions > 0 && !AnyUnclassifiedWork(d)
            && d.buckets[0].counters[FlushCommittedCount] == expectedFlushes
            && d.buckets[0].counters[FlushCommittedSstBytes] > 0
            && d.buckets[0].counters[FlushFullPublicationElapsedNs] > 0
  {
    var c := d.buckets[0].counters;
    NoReasonsMeansSettled(When(Escaped(d), Tainted)
                          + When(c[FlushCommittedCount] != expectedFlushes, FlushCountDiffers), d);
  }

  lemma UnclassifiedReads(v: Value, b: Bucket)
    requires BucketFormed(b) && Documents(v, b)
    ensures UnclassifiedFree(v) <==> !UnclassifiedWork(b)
  {
    IntegrityReadsSettled(v, b);
  }

  /** What the reader finds in an ordinary flush bucket whose histograms are covered. */
  lemma OrdinaryReads(v: Value, b: Bucket)
    requires BucketFormed(b) && Documents(v, b)
    ensures forall c: Counter :: CounterOf(v, c) == b.counters[c]
    ensures SumOf(Index(v, CommittedSstSizeLog2), SIZE_CLASSES) == H.Sum(b.sizes)
    ensures SumOf(Index(Index(v, FullPublicationLatency), Counts), H.BUCKETS) == H.Sum(b.publication)
  {
    IntegrityReadsSettled(v, b);
  }

  /** The reader's gate on a document of a window is the run's own verdict, once the window has an owner. */
  lemma GatesAgree(v: Value, d: Snapshot, expectedFlushes: nat, compactions: nat)
    requires DocumentOf(v, d)
    ensures Evaluate(v, expectedFlushes, compactions) ==
            if d.owner > 0 && EvaluationReasons(d, expectedFlushes, compactions) == [] then Some(Misses(d)) else None
  {
    ShapeReadsUntainted(v, d);
    IntegrityReadsAllSettled(v, d);
    AcceptedExactly(d, expectedFlushes, compactions);
    var vs := ArrayAt(v, Buckets).value;
    forall i | 0 <= i < 18 ensures UnclassifiedFree(vs[i]) <==> !UnclassifiedWork(d.buckets[i]) {
      assert Documents(vs[i], d.buckets[i]);
      UnclassifiedReads(vs[i], d.buckets[i]);
    }
    assert Documents(vs[0], d.buckets[0]);
    OrdinaryReads(vs[0], d.buckets[0]);
  }

  lemma DeltaIsCanonical(after: Snapshot, before: Snapshot)
    requires Canonical(after) && Canonical(before) && Delta(after, before).Some?
    ensures Canonical(Delta(after, before).value) && Delta(after, before).value.owner == after.owner
  {
    var d := Delta(after, before).value;
    forall i | 0 <= i < 18
      ensures BucketFormed(d.buckets[i]) && d.buckets[i].origin == ORIGINS[i / 2]
              && d.buckets[i].medium == SlotMedium(i)
    {
      DifferenceParts(after.buckets[i], before.buckets[i]);
    }
  }

  function Accepted(d: Option<Snapshot>, expectedFlushes: nat, compactions: nat): Option<Gate>
    requires d.Some? ==> Canonical(d.value)
  {
    if d.Some? && EvaluationReasons(d.value, expectedFlushes, compactions) == [] then Some(Misses(d.value)) else None
  }

  function ReadBack(after: Value, before: Value, expectedFlushes: nat, compactions: nat): Option<Gate> {
    var w := Window(after, before);
    if w.Some? then Evaluate(w.value, expectedFlushes, compactions) else None
  }

  /**
    Recomputing the verdict from the two raw snapshot documents gives exactly
    the verdict the run recorded, for all pairs of untainted owned snapshots.
   */
  lemma ReadBackAgrees(after: Snapshot, before: Snapshot, expectedFlushes: nat, compactions: nat)
    requires Canonical(after) && Canonical(before)
    ensures Delta(after, before).Some? ==> Canonical(Delta(after, before).value)
    ensures ReadBack(SnapshotJson(after), SnapshotJson(before), expectedFlushes, compactions) ==
            if Untainted(after) && Untainted(before)
            then Accepted(Delta(after, before), expectedFlushes, compactions) else None
  {
    WindowsAgree(after, before);
    if Delta(after, before).Some? {
      DeltaIsCanonical(after, before);
      SnapshotIsDocumented(Delta(after, before).value);
      GatesAgree(SnapshotJson(Delta(after, before).value), Delta(after, before).value, expectedFlushes, compactions);
    }
  }

  // ---------------------------------------------------------------- settled owners

  /** No bucket of the document has an active operation. */
  predicate IdleDocument(s: Value) {
    ArrayAt(s, Buckets).Some? && forall b :: b in ArrayAt(s, Buckets).value ==> Index(b, ActiveOperations) == Num(0)
  }

  /** No persistent bucket of the document has one. */
  predicate PersistentIdleDocument(s: Value) {
    && ArrayAt(s, Buckets).Some?
    && forall b :: b in ArrayAt(s, Buckets).value && IsPersistent(b) ==> Number(b, ActiveOperations) == Some(0)
  }

  /** What the reader asks of an owner's document after shutdown. */
  predicate SettledDocument(s: Value, owner: Value) {
    PersistentIntegrity(s) && Index(s, OwnerId) == owner && IdleDocument(s)
  }

  predicate GaugeReads(v: Value, b: Bucket) {
    Index(v, ActiveOperations) == Num(b.active) && (IsPersistent(v) <==> b.medium.Persistent?)
  }

  /** The reader finds a document idle exactly when no gauge of its snapshot counts anything. */
  lemma IdleReads(v: Value, s: Snapshot)
    requires DocumentOf(v, s)
    ensures IdleDocument(v) <==> !AnyActive(s)
    ensures PersistentIdleDocument(v) <==> PersistentIdle(s)
  {
    var vs := ArrayAt(v, Buckets).value;
    forall i | 0 <= i < 18 ensures vs[i] in vs && GaugeReads(vs[i], s.buckets[i]) {
      assert Documents(vs[i], s.buckets[i]);
      IntegrityReadsSettled(vs[i], s.buckets[i]);
    }
  }

  lemma SettledExactly(owner: nat, s: Snapshot)
    requires Canonical(s)
    ensures SettlementReasons(owner, s) == [] <==> s.owner == owner && !Escaped(s) && !AnyActive(s) && AllSettled(s)
  {
    NoReasonsMeansSettled(When(s.owner != owner, AnotherOwner) + When(Escaped(s), TaintedAfterShutdown)
                          + When(AnyActive(s), ActiveAfterShutdown), s);
  }

  /** The settlement found no reason exactly when the reader accepts the document as that owner's, idle and sound. */
  lemma SettlementAgrees(owner: nat, v: Value, settled: Snapshot)
    requires DocumentOf(v, settled)
    ensures owner > 0 && SettlementReasons(owner, settled) == [] <==> SettledDocument(v, Num(owner))
  {
    IdleReads(v, settled);
    IntegrityReadsAllSettled(v, settled);
    SettledExactly(owner, settled);
  }

  // ---------------------------------------------------------------- the whole evidence of a run

  /** The four accounting documents a run leaves behind. */
  datatype Evidence<S> = Evidence(before: S, after: S, settled: S, reopened: S)

  predicate Formed(e: Evidence<Snapshot>) {
    Canonical(e.before) && Canonical(e.after) && Canonical(e.settled) && Canonical(e.reopened)
  }

  /** Both settled owners were free of reasons. */
  predicate Sealable(e: Evidence<Snapshot>, reopenedOwner: nat)
    requires Formed(e)
  {
    SettlementReasons(reopenedOwner, e.reopened) == [] && SettlementReasons(e.after.owner, e.settled) == []
  }

  /** What a run measured besides its accounting. */
  datatype Meter = Meter(compactionsBefore: nat, compactionsAfter: nat, elapsed: nat, acknowledged: nat)

  /** The window document; its gate is absent when the verdict is invalid. */
  datatype WindowFile = WindowFile(
    delta: Value,
    gate: Option<Gate>,
    compactions: nat,
    elapsed: nat,
    acknowledged: nat,
    finalized: bool)

  /**
    The window a run writes, before the seals and again after them; none when
    its own difference or its compaction count does not exist.
   */
  function Published(e: Evidence<Snapshot>, reopenedOwner: nat, m: Meter, measured: nat, finalized: bool)
    : Option<WindowFile>
    requires Formed(e) && (Delta(e.after, e.before).Some? ==> Canonical(Delta(e.after, e.before).value))
  {
    var d := Delta(e.after, e.before);
    if d.None? || m.compactionsAfter < m.compactionsBefore then None
    else
      var compactions := m.compactionsAfter - m.compactionsBefore;
      var gate := if finalized && !Sealable(e, reopenedOwner) then None else Accepted(d, measured, compactions);
      Some(WindowFile(SnapshotJson(d.value), gate, compactions, m.elapsed, m.acknowledged, finalized))
  }

  /** The reader's check of the window document against what it recomputes itself. */
  predicate WindowAccepted(after: Value, before: Value, m: Meter, file: WindowFile, measured: nat, rows: nat) {
    && Window(after, before) == Some(file.delta)
    && file.finalized && file.acknowledged == measured * rows && file.elapsed > 0
    && m.compactionsBefore <= m.compactionsAfter && file.compactions == m.compactionsAfter - m.compactionsBefore
    && Evaluate(file.delta, measured, file.compactions).Some?
    && file.gate == Evaluate(file.delta, measured, file.compactions)
  }

  /** Its check of the opening snapshot and of both owners after their shutdown. */
  predicate OwnersAccepted(e: Evidence<Value>) {
    && PersistentIdleDocument(e.before)
    && SettledDocument(e.settled, Index(e.after, OwnerId)) && Window(e.settled, e.after).Some?
    && PersistentIntegrity(e.reopened) && IdleDocument(e.reopened)
    && Number(e.reopened, OwnerId) != Number(e.settled, OwnerId)
  }

  /** The reader's whole check of a run's accounting. */
  predicate EvidenceAccepted(e: Evidence<Value>, m: Meter, file: Option<WindowFile>, measured: nat, rows: nat) {
    file.Some? && WindowAccepted(e.after, e.before, m, file.value, measured, rows) && OwnersAccepted(e)
  }

  function Serialized(e: Evidence<Snapshot>): Evidence<Value> {
    Evidence(SnapshotJson(e.before), SnapshotJson(e.after), SnapshotJson(e.settled), SnapshotJson(e.reopened))
  }

  /** The run held nothing against itself: its window and both of its owners. */
  predicate SelfAccepted(e: Evidence<Snapshot>, reopenedOwner: nat, m: Meter, measured: nat)
    requires Formed(e) && (Delta(e.after, e.before).Some? ==> Canonical(Delta(e.after, e.before).value))
  {
    && m.compactionsBefore <= m.compactionsAfter
    && Accepted(Delta(e.after, e.before), measured, m.compactionsAfter - m.compactionsBefore).Some?
    && Sealable(e, reopenedOwner)
  }

  /**
    For every evidence: the reader accepts what the run wrote exactly when it is
    the final document of a run that accepted itself, its window opened idle and
    untainted and took time, every measured row was acknowledged, its final
    snapshot continues the measured one, and the reopened owner is a new one.
   */
  lemma EvidenceAgrees(e: Evidence<Snapshot>, reopenedOwner: nat, m: Meter, measured: nat, rows: nat, finalized: bool)
    requires Formed(e)
    ensures Delta(e.after, e.before).Some? ==> Canonical(Delta(e.after, e.before).value)
    ensures EvidenceAccepted(Serialized(e), m, Published(e, reopenedOwner, m, measured, finalized), measured, rows)
            <==>
            && SelfAccepted(e, reopenedOwner, m, measured) && reopenedOwner > 0
            && finalized && m.elapsed > 0 && m.acknowledged == measured * rows
            && Untainted(e.before) && PersistentIdle(e.before)
            && Delta(e.settled, e.after).Some? && e.reopened.owner != e.settled.owner
  {
    if Delta(e.after, e.before).Some? { DeltaIsCanonical(e.after, e.before); }
    var file := Published(e, reopenedOwner, m, measured, finalized);
    if file.Some? && finalized {
      WindowIsAccepted(e, reopenedOwner, m, file.value, measured, rows);
      if file.value.gate.Some? && Untainted(e.after) {
        OwnersAreAccepted(e, reopenedOwner);
      }
    }
  }

  /** The window half: the recomputed window and gate are the recorded ones, whenever there are any. */
  lemma WindowIsAccepted(e: Evidence<Snapshot>, reopenedOwner: nat, m: Meter, file: WindowFile, measured: nat,
                         rows: nat)
    requires Formed(e) && Delta(e.after, e.before).Some? && Canonical(Delta(e.after, e.before).value)
    requires Published(e, reopenedOwner, m, measured, true) == Some(file)
    ensures file.gate.Some? <==> SelfAccepted(e, reopenedOwner, m, measured)
    ensures WindowAccepted(SnapshotJson(e.after), SnapshotJson(e.before), m, file, measured, rows) <==>
            && file.gate.Some? && Untainted(e.after) && Untainted(e.before)
            && m.elapsed > 0 && m.acknowledged == measured * rows
  {
    WindowsAgree(e.after, e.before);
    DeltaIsCanonical(e.after, e.before);
    SnapshotIsDocumented(Delta(e.after, e.before).value);
    GatesAgree(file.delta, Delta(e.after, e.before).value, measured, file.compactions);
  }

  /** Each document describes its snapshot. */
  ghost predicate Describes(docs: Evidence<Value>, e: Evidence<Snapshot>) {
    && DocumentOf(docs.before, e.before) && DocumentOf(docs.after, e.after)
    && DocumentOf(docs.settled, e.settled) && DocumentOf(docs.reopened, e.reopened)
  }

  lemma SerializedDescribes(e: Evidence<Snapshot>)
    requires Formed(e)
    ensures Describes(Serialized(e), e)
  {
    SnapshotIsDocumented(e.before);
    SnapshotIsDocumented(e.after);
    SnapshotIsDocumented(e.settled);
    SnapshotIsDocumented(e.reopened);
  }

  /** The reader finds both owners settled exactly when the run did, and the reopened one new. */
  lemma OwnersRead(docs: Evidence<Value>, e: Evidence<Snapshot>)
    requires Describes(docs, e)
    ensures OwnersAccepted(docs) <==>
            && PersistentIdle(e.before) && Sealable(e, e.reopened.owner)
            && e.reopened.owner > 0 && e.settled.owner > 0 && e.reopened.owner != e.settled.owner
            && Window(docs.settled, docs.after).Some?
  {
    IdleReads(docs.before, e.before);
    SettlementAgrees(e.reopened.owner, docs.reopened, e.reopened);
    SettlementAgrees(e.after.owner, docs.settled, e.settled);
    SettledExactly(e.after.owner, e.settled);
  }

  /** The other half: two sealed owners leave the reader the opening, the continuation and the new owner to check. */
  lemma OwnersAreAccepted(e: Evidence<Snapshot>, reopenedOwner: nat)
    requires Formed(e) && Sealable(e, reopenedOwner) && Untainted(e.after)
    ensures OwnersAccepted(Serialized(e)) <==>
            && PersistentIdle(e.before) && reopenedOwner > 0
            && Delta(e.settled, e.after).Some? && e.reopened.owner != e.settled.owner
  {
    SerializedDescribes(e);
    OwnersRead(Serialized(e), e);
    SealedOwners(e, reopenedOwner);
    WindowsAgree(e.settled, e.after);
  }

  lemma SealedOwners(e: Evidence<Snapshot>, reopenedOwner: nat)
    requires Formed(e) && Sealable(e, reopenedOwner) && e.after.owner > 0
    ensures e.reopened.owner == reopenedOwner && e.settled.owner == e.after.owner && Untainted(e.settled)
  {
    SettledExactly(reopenedOwner, e.reopened);
    SettledExactly(e.after.owner, e.settled);
  }

  // ---------------------------------------------------------------- clean runs

  /** Operations begun minus operations folded at one place. */
  function Open(events: seq<Event>, at: Place): int {
    if events == [] then 0
    else
      var e := events[|events| - 1];
      Open(events[..|events| - 1], at)
      + (if !Belongs(e, at) then 0 else if e.Begin? then 1 else if e.Fold? then -1 else 0)
  }

  /** The gauge counts exactly the operations of its own origin and medium that are open. */
  lemma {:induction false} GaugeCountsOpen(id: nat, events: seq<Event>, i: nat)
    requires forall k :: 0 <= k < |events| ==> EventOk(events[k])
    requires i < 18 && !Replay(id, events).overflow
    ensures Replay(id, events).buckets[i].active == Open(events, PlaceAt(i))
    ensures PlaceOf(Replay(id, events).buckets[i]) == PlaceAt(i)
  {
    if events != [] {
      var n := |events| - 1;
      GaugeCountsOpen(id, events[..n], i);
      GaugeStep(Replay(id, events[..n]), events[n], i);
    }
  }

  lemma GaugeStep(s: Snapshot, e: Event, i: nat)
    requires Canonical(s) && EventOk(e) && i < 18 && !Step(s, e).overflow
    ensures Step(s, e).buckets[i].active ==
            s.buckets[i].active
            + (if !Belongs(e, PlaceAt(i)) then 0 else if e.Begin? then 1 else if e.Fold? then -1 else 0)
  {
    OwnBucket(s, e, i);
    var b := s.buckets[EventSlot(e)];
    if e.Begin? {
      assert !Add(b.active, 1).1;
    } else if e.Fold? {
      assert b.active > 0;
    }
  }

  /** Nothing escaped the accounting. */
  predicate Contained(events: seq<Event>) {
    forall k :: 0 <= k < |events| ==> !Escape(events[k])
  }

  /** A snapshot reports escaped work exactly when some escaped. */
  lemma {:induction false} EscapesAreReported(id: nat, events: seq<Event>)
    requires forall k :: 0 <= k < |events| ==> EventOk(events[k])
    ensures Replay(id, events).owner == id
    ensures Replay(id, events).late == 0 && Replay(id, events).incomplete == 0 <==> Contained(events)
  {
    if events != [] {
      var n := |events| - 1;
      EscapesAreReported(id, events[..n]);
      StepReportsEscape(Replay(id, events[..n]), events[n]);
      ContainedSoFar(events);
    }
  }

  lemma StepReportsEscape(s: Snapshot, e: Event)
    requires Canonical(s) && EventOk(e)
    ensures Step(s, e).owner == s.owner
    ensures Step(s, e).late == 0 && Step(s, e).incomplete == 0 <==> s.late == 0 && s.incomplete == 0 && !Escape(e)
  {
  }

  lemma ContainedSoFar(events: seq<Event>)
    requires events != []
    ensures Contained(events) <==> Contained(events[..|events| - 1]) && !Escape(events[|events| - 1])
  {
  }

  lemma NothingFailedInWindow(after: Bucket, before: Bucket)
    requires BucketFormed(after) && BucketFormed(before) && NothingFailed(after) && NothingFailed(before)
    requires BucketDifference(after, before).Some?
    ensures BucketFormed(BucketDifference(after, before).value) && NothingFailed(BucketDifference(after, before).value)
  {
    CounterDifferenceAt(after.counters, before.counters, OperationFailures);
    CounterDifferenceAt(after.counters, before.counters, AbandonedOperations);
    CounterDifferenceAt(after.counters, before.counters, SnapshotDurableCount);
    CounterDifferenceAt(after.counters, before.counters, CheckpointCompleteCount);
    CounterDifferenceAt(after.counters, before.counters, CheckpointAttempts);
  }

  ghost predicate CleanRun(id: nat, events: seq<Event>) {
    && (forall k :: 0 <= k < |events| ==> EventOk(events[k]) && CleanEvent(events[k]))
    && !Replay(id, events).overflow
  }

  lemma CleanRunLaws(id: nat, events: seq<Event>, earlier: seq<Event>, i: nat)
    requires CleanRun(id, events) && earlier <= events && i < 18
    ensures CleanRun(id, earlier)
    ensures
      var b := BucketDifference(Replay(id, events).buckets[i], Replay(id, earlier).buckets[i]);
      && b.Some? && BucketFormed(b.value) && NothingFailed(b.value) && Covered(b.value)
      && b.value.active == Open(events, PlaceAt(i))
  {
    LaterDominates(id, events, earlier, i);
    CleanReplay(id, events, i);
    CleanReplay(id, earlier, i);
    ReplayKeepsLaws(id, events, i);
    ReplayKeepsLaws(id, earlier, i);
    GaugeCountsOpen(id, events, i);
    NothingFailedInWindow(Replay(id, events).buckets[i], Replay(id, earlier).buckets[i]);
    WindowIsCovered(Replay(id, events).buckets[i], Replay(id, earlier).buckets[i]);
  }

  predicate AllFolded(events: seq<Event>) {
    forall i :: 0 <= i < 18 ==> Open(events, PlaceAt(i)) == 0
  }

  predicate PersistentFolded(events: seq<Event>) {
    forall i :: 0 <= i < 18 && SlotMedium(i).Persistent? ==> Open(events, PlaceAt(i)) == 0
  }

  lemma SettledByFolding(d: Snapshot, events: seq<Event>)
    requires Canonical(d)
    requires forall i :: 0 <= i < 18 ==> (Settled(d.buckets[i]) <==> Open(events, PlaceAt(i)) == 0)
    ensures AllSettled(d) <==> PersistentFolded(events)
  {
    assert forall i :: 0 <= i < 18 ==> d.buckets[i].medium == SlotMedium(i);
  }

  lemma CleanWindowExists(id: nat, events: seq<Event>, earlier: seq<Event>)
    requires CleanRun(id, events) && Contained(events) && earlier <= events
    ensures CleanRun(id, earlier)
    ensures
      var d := Delta(Replay(id, events), Replay(id, earlier));
      && d.Some? && Canonical(d.value)
      && forall i :: 0 <= i < 18 ==>
           d.value.buckets[i] == BucketDifference(Replay(id, events).buckets[i], Replay(id, earlier).buckets[i]).value
  {
    CleanRunLaws(id, events, earlier, 0);
    var after, before := Replay(id, events), Replay(id, earlier);
    EscapesAreReported(id, events);
    EscapesAreReported(id, earlier);
    forall i | 0 <= i < 18 ensures BucketDifference(after.buckets[i], before.buckets[i]).Some? {
      CleanRunLaws(id, events, earlier, i);
    }
    DeltaIsCanonical(after, before);
  }

  /**
    Every window of a run in which every operation succeeded exists, and all its
    persistent buckets are settled exactly when no persistent operation is open
    at its end.
   */
  lemma CleanWindowIsSettled(id: nat, events: seq<Event>, earlier: seq<Event>)
    requires CleanRun(id, events) && Contained(events) && earlier <= events
    ensures CleanRun(id, earlier)
    ensures
      var d := Delta(Replay(id, events), Replay(id, earlier));
      && d.Some? && Canonical(d.value)
      && (AllSettled(d.value) <==> PersistentFolded(events))
  {
    CleanWindowExists(id, events, earlier);
    var d := Delta(Replay(id, events), Replay(id, earlier)).value;
    forall i | 0 <= i < 18 ensures Settled(d.buckets[i]) <==> Open(events, PlaceAt(i)) == 0 {
      CleanRunLaws(id, events, earlier, i);
    }
    SettledByFolding(d, events);
  }

  lemma FinalBucket(id: nat, events: seq<Event>, i: nat)
    requires CleanRun(id, events) && i < 18
    ensures Replay(id, events).buckets[i].active == Open(events, PlaceAt(i))
    ensures Settled(Replay(id, events).buckets[i]) <==> Open(events, PlaceAt(i)) == 0
  {
    CleanReplay(id, events, i);
    ReplayKeepsLaws(id, events, i);
    GaugeCountsOpen(id, events, i);
  }

  /**
    A clean run settles exactly when nothing escaped and every operation was
    folded; the reader then accepts it too.
   */
  lemma CleanRunSettles(id: nat, events: seq<Event>)
    requires id > 0 && CleanRun(id, events)
    ensures SettlementReasons(id, Replay(id, events)) == [] <==> Contained(events) && AllFolded(events)
    ensures Contained(events) && AllFolded(events) ==> PersistentIntegrity(SnapshotJson(Replay(id, events)))
  {
    var s := Replay(id, events);
    EscapesAreReported(id, events);
    forall i | 0 <= i < 18
      ensures s.buckets[i].active == Open(events, PlaceAt(i))
      ensures Settled(s.buckets[i]) <==> Open(events, PlaceAt(i)) == 0
    {
      FinalBucket(id, events, i);
    }
    SettledExactly(id, s);
    SnapshotIsDocumented(s);
    IntegrityReadsAllSettled(SnapshotJson(s), s);
    SettledByFolding(s, events);
    IdleExactly(s, events);
  }

  lemma IdleExactly(s: Snapshot, events: seq<Event>)
    requires Canonical(s) && forall i :: 0 <= i < 18 ==> s.buckets[i].active == Open(events, PlaceAt(i))
    ensures AnyActive(s) <==> !AllFolded(events)
  {
    if !AllFolded(events) {
      var i :| 0 <= i < 18 && Open(events, PlaceAt(i)) != 0;
      assert s.buckets[i].active > 0;
    }
  }
}
