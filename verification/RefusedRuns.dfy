/** Completed runs that their own checker refuses: the measured clock reads nothing, or more than the cell's budget. */
module RefusedRuns {
  import opened Basics
  import opened Accounting
  import opened World
  import opened Ingestion
  import C = CommitBackpressure

  const LATE := 10_000 * SECOND

  /** A clock that shows zero for `still` readings and is far past every deadline from then on. */
  function Clock(still: nat): nat -> nat {
    (k: nat) => if k < still then 0 else LATE
  }

  /** Every commit and flush is accepted and every sample is that of a new, idle owner. */
  method Start(still: nat) returns (w: Environment)
    ensures fresh(w) && Now(w) == Calls(0, 0, 0, 0) && Steady(w, still)
  {
    w := new Environment(Clock(still), _ => Committed, _ => Cleared, _ => Sampled(0, NewOwner(1)), _ => Flushed);
    forall k: nat
      ensures w.Reading(k) == if k < still then 0 else LATE
      ensures w.Commits(k) == Committed && w.Waits(k) == Cleared && w.Flushes(k) == Flushed
      ensures w.Queries(k) == Sampled(0, NewOwner(1))
    {
      assert w.clock(k) == Clock(still)(k) && w.commits(k) == Committed && w.waits(k) == Cleared;
      assert w.queries(k) == Sampled(0, NewOwner(1)) && w.flushes(k) == Flushed;
    }
  }

  /** The environment that `Start` makes. */
  ghost predicate Steady(w: Environment, still: nat) {
    && w.Streams()
    && (forall k: nat :: w.Reading(k) == if k < still then 0 else LATE)
    && (forall k: nat :: w.Commits(k) == Committed) && (forall k: nat :: w.Waits(k) == Cleared)
    && (forall k: nat :: w.Queries(k) == Sampled(0, NewOwner(1))) && (forall k: nat :: w.Flushes(k) == Flushed)
  }

  lemma NewOwnerIsIdle()
    ensures Canonical(NewOwner(1)) && PersistentIdle(NewOwner(1)) && !NoDelta(NewOwner(1), NewOwner(1))
  {
    var s := NewOwner(1);
    assert s == Replay(1, []);
    forall i | 0 <= i < 18 ensures BucketDifference(s.buckets[i], s.buckets[i]).Some? {
      DifferenceWithItself(s.buckets[i]);
    }
  }

  lemma SteadyIsOrderly(w: Environment, still: nat)
    requires Steady(w, still)
    ensures Orderly(w) && w.Reaches(LATE, still)
  {
    NewOwnerIsIdle();
  }

  /** While the clock stands still nothing has to be tried twice. */
  lemma SteadyIsPrompt(w: Environment, still: nat, warmup: nat, cycles: nat)
    requires Steady(w, still) && warmup < cycles && 3 * cycles + 7 <= still
    ensures PromptRun(w, warmup, cycles, Calls(0, 0, 0, 0))
  {
    NewOwnerIsIdle();
    forall k: nat | k < 3 * cycles + 5 ensures Brisk(w, k, C.CELL_BUDGET) {
    }
  }

  /**
    Runs any cell with a window on a clock that stands still through all its
    readings, or through all but the last. The run completes, with a sound
    report; the measured clock shows zero in the first case and more than the
    budget in the second, and the commit check refuses both.
   */
  method Run(cell: C.Cell, late: bool) returns (r: Report)
    requires cell.cycles > 1
    ensures SoundReport(r, cell)
    ensures r.measuredElapsed == if late then LATE else 0
    ensures !C.Qualifies(r.opening.tally, r.tally, cell, r.measuredElapsed)
  {
    var still := 3 * cell.cycles + (if late then 7 else 8);
    var w := Start(still);
    SteadyIsOrderly(w, still);
    SteadyIsPrompt(w, still, cell.Warmup(), cell.cycles);
    var done;
    ghost var opening;
    done, opening := Ingest(cell, w, still);
    r := done.value;
  }
}
