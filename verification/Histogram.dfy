/** Fixed-bin latency histograms and the 95th percentile read from their differences. */
module Histogram {
  import opened Basics
  import opened Bytes

  const BUCKETS := 80
  const LINEAR_BUCKETS := 64
  const STEP_NS := 250_000
  const MISS_NS := 5_000_000

  /** Inclusive upper bound of bin `i` in nanoseconds. */
  function Upper(i: nat): nat
    ensures i < LINEAR_BUCKETS ==> Upper(i) == (i + 1) * STEP_NS - 1
  {
    if i < LINEAR_BUCKETS then (i + 1) * STEP_NS - 1
    else
      Pow2Positive(i - LINEAR_BUCKETS + 1);
      LINEAR_BUCKETS * STEP_NS * Pow2(i - LINEAR_BUCKETS + 1) - 1
  }

  function Lower(i: nat): nat {
    if i == 0 then 0 else Upper(i - 1) + 1
  }

  lemma {:induction false} Pow2Positive(n: nat)
    ensures Pow2(n) > 0
  {
    if n > 0 { Pow2Positive(n - 1); }
  }

  /** The first bin from `i` on whose bound reaches `ns`, the last bin absorbing the rest. */
  function BinFrom(ns: nat, i: nat): (bin: nat)
    requires i < BUCKETS
    ensures i <= bin < BUCKETS
    ensures forall j :: i <= j < bin ==> ns > Upper(j)
    ensures ns <= Upper(bin) || bin == BUCKETS - 1
    decreases BUCKETS - i, ns
  {
    if ns <= Upper(i) || i == BUCKETS - 1 then i else BinFrom(ns, i + 1)
  }

  function BinOf(ns: nat): (bin: nat)
    ensures bin < BUCKETS
  {
    BinFrom(ns, 0)
  }

  /** The histogram of recorded samples. */
  function Binned(samples: seq<nat>): (counts: seq<nat>)
    ensures |counts| == BUCKETS
  {
    if samples == [] then seq(BUCKETS, _ => 0)
    else Recorded(Binned(samples[..|samples| - 1]), samples[|samples| - 1])
  }

  function Recorded(counts: seq<nat>, ns: nat): seq<nat>
    requires |counts| == BUCKETS
  {
    counts[BinOf(ns) := counts[BinOf(ns)] + 1]
  }

  function PrefixSum(counts: seq<nat>, k: nat): nat
    requires k <= |counts|
  {
    if k == 0 then 0 else PrefixSum(counts, k - 1) + counts[k - 1]
  }

  function Sum(counts: seq<nat>): nat {
    PrefixSum(counts, |counts|)
  }

  /** Bin-wise difference; none when some bin would go below zero or the sizes differ. */
  function Difference(after: seq<nat>, before: seq<nat>): Option<seq<nat>> {
    if |after| == |before| && forall i :: 0 <= i < |after| ==> before[i] <= after[i]
    then Some(seq(|after|, i requires 0 <= i < |after| && before[i] <= after[i] => after[i] - before[i]))
    else None
  }

  // ---------------------------------------------------------------- the percentile

  function Rank(total: nat): nat {
    (total * 95 + 99) / 100
  }

  /** Bin `k` is where the running count first reaches `rank`. */
  predicate Reaches(counts: seq<nat>, rank: nat, k: nat) {
    k < |counts| && PrefixSum(counts, k) < rank <= PrefixSum(counts, k + 1)
  }

  /** The first such bin from `k` on. */
  function ReachedFrom(counts: seq<nat>, rank: nat, k: nat): (bin: nat)
    requires k < |counts| && PrefixSum(counts, k) < rank <= Sum(counts)
    ensures Reaches(counts, rank, bin)
    decreases |counts| - k
  {
    if PrefixSum(counts, k + 1) >= rank then k else ReachedFrom(counts, rank, k + 1)
  }

  function P95Bounds(counts: seq<nat>): Option<(nat, nat)> {
    if Sum(counts) == 0 then None
    else
      var bin := ReachedFrom(counts, Rank(Sum(counts)), 0);
      Some((Lower(bin), Upper(bin)))
  }

  lemma {:induction false} PrefixMonotone(counts: seq<nat>, j: nat, k: nat)
    requires j <= k <= |counts|
    ensures PrefixSum(counts, j) <= PrefixSum(counts, k)
    decreases k
  {
    if j < k { PrefixMonotone(counts, j, k - 1); }
  }

  /** There is only one such bin, so method and function agree. */
  lemma ReachesUnique(counts: seq<nat>, rank: nat, j: nat, k: nat)
    requires Reaches(counts, rank, j) && Reaches(counts, rank, k)
    ensures j == k
  {
    if j < k { PrefixMonotone(counts, j + 1, k); }
    if k < j { PrefixMonotone(counts, k + 1, j); }
  }

  datatype QuantileError = WrongSize | Impossible

  /**
    The 95th percentile's bin bounds. The running count always reaches the
    rank, so the last error cannot occur.
   */
  method P95(counts: seq<nat>) returns (r: Result<Option<(nat, nat)>, QuantileError>)
    ensures |counts| != BUCKETS <==> r == Err(WrongSize)
    ensures r != Err(Impossible)
    ensures |counts| == BUCKETS ==> r == Ok(P95Bounds(counts))
    ensures r.Ok? ==> (r.value.None? <==> Sum(counts) == 0)
    ensures forall k :: r.Ok? && 0 <= k < BUCKETS && ReachesShare(counts, k) ==> r.value == Some((Lower(k), Upper(k)))
  {
    if |counts| != BUCKETS { return Err(WrongSize); }
    var total := 0;
    for i := 0 to |counts|
      invariant total == PrefixSum(counts, i)
    {
      total := total + counts[i];
    }
    if total == 0 { return Ok(None); }
    var rank := (total * 95 + 99) / 100;
    var seen := 0;
    for index := 0 to |counts|
      invariant seen == PrefixSum(counts, index) < rank
    {
      seen := seen + counts[index];
      if seen >= rank {
        ReachesUnique(counts, rank, index, ReachedFrom(counts, rank, 0));
        forall k | 0 <= k < BUCKETS && ReachesShare(counts, k)
          ensures P95Bounds(counts) == Some((Lower(k), Upper(k)))
        {
          P95Exactly(counts, k);
        }
        return Ok(Some((Lower(index), Upper(index))));
      }
    }
    assert false;
    r := Err(Impossible);
  }

  // ---------------------------------------------------------------- bins and samples

  lemma {:induction false} UpperIncreases(i: nat, j: nat)
    requires i < j
    ensures Upper(i) < Upper(j)
    decreases j
  {
    if i < j - 1 { UpperIncreases(i, j - 1); }
    if j > LINEAR_BUCKETS { Pow2Positive(j - 1 - LINEAR_BUCKETS + 1); }
    if j == LINEAR_BUCKETS { assert Pow2(1) == 2; }
  }

  /** A sample lies below bin `k` exactly when it is within the bound before it. */
  lemma BinBelow(ns: nat, k: nat)
    requires 0 < k < BUCKETS
    ensures BinOf(ns) < k <==> ns <= Upper(k - 1)
  {
    var bin := BinOf(ns);
    if bin < k - 1 { UpperIncreases(bin, k - 1); }
  }

  /** The bin index computed by division below 16 ms and by search above it. */
  function BucketIndex(ns: nat): nat {
    if ns < LINEAR_BUCKETS * STEP_NS then ns / STEP_NS else BinFrom(ns, LINEAR_BUCKETS)
  }

  /** The fast index is the searched one. */
  lemma BucketIndexIsBinOf(ns: nat)
    ensures BucketIndex(ns) == BinOf(ns)
  {
    var fast, bin := BucketIndex(ns), BinOf(ns);
    if ns < LINEAR_BUCKETS * STEP_NS {
      assert Upper(fast) == (fast + 1) * STEP_NS - 1;
      if 0 < fast { BinBelow(ns, fast); }
      BinBelow(ns, fast + 1);
    } else {
      BinBelow(ns, LINEAR_BUCKETS);
      if bin < fast {
        assert false;
      } else if fast < bin {
        BinBelow(ns, fast + 1);
      }
    }
  }

  lemma {:induction false} PrefixBump(counts: seq<nat>, j: nat, k: nat)
    requires j < |counts| && k <= |counts|
    ensures PrefixSum(counts[j := counts[j] + 1], k) == PrefixSum(counts, k) + (if j < k then 1 else 0)
  {
    if k > 0 { PrefixBump(counts, j, k - 1); }
  }

  lemma {:induction false} PrefixZero(counts: seq<nat>, k: nat)
    requires k <= |counts| && forall i :: 0 <= i < |counts| ==> counts[i] == 0
    ensures PrefixSum(counts, k) == 0
  {
    if k > 0 { PrefixZero(counts, k - 1); }
  }

  function CountAtMost(samples: seq<nat>, bound: nat): nat {
    if samples == [] then 0
    else CountAtMost(samples[..|samples| - 1], bound) + (if samples[|samples| - 1] <= bound then 1 else 0)
  }

  /** The running count of a histogram counts the samples within a bin's bound. */
  lemma {:induction false} PrefixCounts(samples: seq<nat>, k: nat)
    requires k <= BUCKETS
    ensures k == 0 ==> PrefixSum(Binned(samples), k) == 0
    ensures 0 < k < BUCKETS ==> PrefixSum(Binned(samples), k) == CountAtMost(samples, Upper(k - 1))
    ensures k == BUCKETS ==> PrefixSum(Binned(samples), k) == |samples|
  {
    if samples == [] {
      PrefixZero(Binned(samples), k);
    } else {
      var n := |samples| - 1;
      PrefixCounts(samples[..n], k);
      PrefixBump(Binned(samples[..n]), BinOf(samples[n]), k);
      if 0 < k < BUCKETS { BinBelow(samples[n], k); }
    }
  }

  /** Recording more samples adds their histogram, bin by bin. */
  lemma {:induction false} BinnedConcat(before: seq<nat>, window: seq<nat>, i: nat)
    requires i < BUCKETS
    ensures Binned(before + window)[i] == Binned(before)[i] + Binned(window)[i]
  {
    if window == [] {
      assert before + window == before;
    } else {
      var n := |window| - 1;
      var init := window[..n];
      BinnedConcat(before, init, i);
      assert before + window == (before + init) + [window[n]] && window == init + [window[n]];
      BinnedSnoc(before + init, window[n], i);
      BinnedSnoc(init, window[n], i);
    }
  }

  lemma BinnedSnoc(samples: seq<nat>, ns: nat, i: nat)
    requires i < BUCKETS
    ensures Binned(samples + [ns])[i] == Binned(samples)[i] + (if i == BinOf(ns) then 1 else 0)
  {
    assert (samples + [ns])[..|samples|] == samples;
  }

  lemma WindowHistogram(before: seq<nat>, window: seq<nat>)
    ensures Difference(Binned(before + window), Binned(before)) == Some(Binned(window))
  {
    var x, y, z := Binned(before + window), Binned(before), Binned(window);
    forall i | 0 <= i < BUCKETS ensures x[i] == y[i] + z[i] { BinnedConcat(before, window, i); }
    assert Difference(x, y).Some? && Difference(x, y).value == z;
  }

  // ---------------------------------------------------------------- the true percentile

  function CountBelow(samples: seq<nat>, v: nat): nat {
    if v == 0 then 0 else CountAtMost(samples, v - 1)
  }

  /** At least 95 in 100 samples are at most `v`, and fewer than that are below it. */
  predicate IsP95(samples: seq<nat>, v: nat) {
    100 * CountAtMost(samples, v) >= 95 * |samples| > 100 * CountBelow(samples, v)
  }

  lemma {:induction false} CountMonotone(samples: seq<nat>, a: nat, b: nat)
    requires a <= b
    ensures CountAtMost(samples, a) <= CountAtMost(samples, b) <= |samples|
  {
    if samples != [] { CountMonotone(samples[..|samples| - 1], a, b); }
  }

  /** There is one such value. */
  lemma P95Unique(samples: seq<nat>, v: nat, w: nat)
    requires IsP95(samples, v) && IsP95(samples, w)
    ensures v == w
  {
    if v < w { CountMonotone(samples, v, w - 1); }
    if w < v { CountMonotone(samples, w, v - 1); }
  }

  function Greatest(samples: seq<nat>): nat {
    if samples == [] then 0
    else
      var rest, last := Greatest(samples[..|samples| - 1]), samples[|samples| - 1];
      if rest >= last then rest else last
  }

  lemma {:induction false} AllAtMostGreatest(samples: seq<nat>, bound: nat)
    requires bound >= Greatest(samples)
    ensures CountAtMost(samples, bound) == |samples|
  {
    if samples != [] { AllAtMostGreatest(samples[..|samples| - 1], bound); }
  }

  lemma {:induction false} LeastShare(samples: seq<nat>, v: nat) returns (p: nat)
    requires 95 * |samples| > 100 * CountBelow(samples, v)
    ensures IsP95(samples, p)
    decreases if v <= Greatest(samples) then Greatest(samples) - v + 1 else 0
  {
    if 100 * CountAtMost(samples, v) >= 95 * |samples| {
      p := v;
    } else {
      if v >= Greatest(samples) { AllAtMostGreatest(samples, v); }
      p := LeastShare(samples, v + 1);
    }
  }

  /** Every window with samples has one. */
  lemma P95Exists(samples: seq<nat>) returns (p: nat)
    requires samples != []
    ensures IsP95(samples, p)
  {
    p := LeastShare(samples, 0);
  }

  /** A threshold is at most the percentile exactly when fewer than 95 in 100 samples are below it. */
  lemma P95AtLeast(samples: seq<nat>, v: nat, threshold: nat)
    requires IsP95(samples, v)
    ensures v >= threshold <==> 100 * CountBelow(samples, threshold) < 95 * |samples|
  {
    if v >= threshold > 0 {
      if v > 0 { CountMonotone(samples, threshold - 1, v - 1); }
    } else if threshold > 0 {
      CountMonotone(samples, v, threshold - 1);
    }
  }

  /** Bin `k` is where the running count first reaches 95 in 100. */
  predicate ReachesShare(counts: seq<nat>, k: nat) {
    k < |counts| && 100 * PrefixSum(counts, k) < 95 * Sum(counts) <= 100 * PrefixSum(counts, k + 1)
  }

  /** The bounds read from a histogram are those of that one bin. */
  lemma P95Exactly(counts: seq<nat>, k: nat)
    ensures P95Bounds(counts).None? <==> Sum(counts) == 0
    ensures ReachesShare(counts, k) ==> P95Bounds(counts) == Some((Lower(k), Upper(k)))
    ensures Sum(counts) > 0 ==> exists j :: 0 <= j < |counts| && ReachesShare(counts, j)
  {
    if Sum(counts) > 0 {
      var bin := ReachedFrom(counts, Rank(Sum(counts)), 0);
      assert ReachesShare(counts, bin);
      if ReachesShare(counts, k) { ReachesUnique(counts, Rank(Sum(counts)), k, bin); }
    }
  }

  /** A histogram reaches the share in the bin of its samples' percentile. */
  lemma PercentileBin(window: seq<nat>, v: nat)
    requires IsP95(window, v)
    ensures ReachesShare(Binned(window), BinOf(v))
  {
    var k := BinOf(v);
    PrefixCounts(window, BUCKETS);
    PrefixCounts(window, k);
    PrefixCounts(window, k + 1);
    if k > 0 {
      BinBelow(v, k);
      CountMonotone(window, Upper(k - 1), v - 1);
    }
    if k + 1 < BUCKETS {
      BinBelow(v, k + 1);
      CountMonotone(window, v, Upper(k));
    }
  }

  /**
    Reading the percentile from the difference of two cumulative histograms
    finds exactly the bin of the window's true 95th percentile.
   */
  lemma WindowPercentileBin(before: seq<nat>, window: seq<nat>, v: nat)
    requires IsP95(window, v)
    ensures
      var counts := Difference(Binned(before + window), Binned(before));
      && counts.Some? && Sum(counts.value) == |window|
      && P95Bounds(counts.value) == Some((Lower(BinOf(v)), Upper(BinOf(v))))
  {
    WindowHistogram(before, window);
    PrefixCounts(window, BUCKETS);
    PercentileBin(window, v);
    P95Exactly(Binned(window), BinOf(v));
  }

  /** 5 ms is where bin 20 begins. */
  lemma ThresholdIsABinEdge(k: nat)
    ensures Lower(k) >= 5_000_000 <==> k >= 20
  {
    if k > 20 { UpperIncreases(19, k - 1); }
    if 0 < k < 20 { assert Upper(k - 1) == k * STEP_NS - 1; }
  }

  /**
    The reported bounds contain the true percentile, provided it is below the
    last bound, and the 5 ms test on the lower bound is the test on the true
    percentile itself.
   */
  lemma WindowPercentileIsDecisive(before: seq<nat>, window: seq<nat>, v: nat)
    requires IsP95(window, v)
    ensures
      var counts := Difference(Binned(before + window), Binned(before));
      && counts.Some? && P95Bounds(counts.value).Some?
      && var (lower, upper) := P95Bounds(counts.value).value;
         && lower <= v && (v <= upper || v > Upper(BUCKETS - 1))
         && (lower >= 5_000_000 <==> v >= 5_000_000)
  {
    var k := BinOf(v);
    WindowPercentileBin(before, window, v);
    if k > 0 { BinBelow(v, k); }
    ThresholdIsABinEdge(k);
    BinBelow(v, 20);
    assert Upper(19) == 4_999_999;
  }

  /** Bins are 250 us wide up to 16 ms, and from there each ends at twice the end of the one before. */
  lemma BinWidths(i: nat)
    ensures i < 64 ==> Lower(i) == 250_000 * i && Upper(i) + 1 == 250_000 * (i + 1)
    ensures i >= 64 ==> Lower(i) == Upper(i - 1) + 1 && Upper(i) + 1 == 2 * (Upper(i - 1) + 1)
    ensures Upper(63) + 1 == 16_000_000
  {
    if i == 64 { assert Pow2(1) == 2; }
    if i > 64 { Pow2Positive(i - 64); }
  }
}
