# Midge verification

A Dafny model of the parts of the Midge storage engine and its measurement
harness whose correctness is decided by their own code:

- **The failpoint gate** (`FailpointGate`, `GateIsolation`, `GateExemption`,
  `GateProgress`): the process-wide reader/writer gate with its generation counter, read scopes and
  worker tokens, as a step relation over any number of threads. Isolation of a
  test's hold is proved over every interleaving, freedom from deadlock over every
  interleaving in which callers keep the stated discipline; pool threads that
  take up one token after another, and waits for the completion of their tasks,
  are included.
- **The block codec** (`Crc32c`, `Codec`): CRC32C (the polynomial of section
  12.1 of RFC 3720), framing, adaptive choice, decode and reservation bounds,
  WAL values.
- **SST names** (`Decimal`, `CloudLayout`): printers, parsers and their order.
- **Metadata accounting** (`Histogram`, `Accounting`, `RunTotals`): the engine's
  counters over whole runs, windows between snapshots, and what a window says
  about the events in it.
- **The two gates** (`CounterTree`, `AccountingJson`, `CheckpointGate`,
  `GateAgreement`, `ReaderSoundness`): the verdict a measured run computes from its
  own snapshots, and the independent reader that recomputes it from the documents.
- **The measuring loops** (`World`, `CommitBackpressure`, `MetadataBoundary`,
  `Ingestion`, `RefusedRuns`): deadline-bounded retries and sampling, a whole cell, and the
  checkers of what they record.
- **The database verifier** (`DatabaseVerifier`), **the merge iterator**
  (`Merge`) and **the bulk loader** (`Preload`).

`Basics`, `Bytes` and `Lex` hold shared vocabulary.

How the outside world appears:

- Clocks, commits, waits, queries and flushes are arbitrary infinite streams of replies
  (`World.Environment`); the only things asked of them are that the clock does
  not run backwards and eventually reaches any deadline, that a stall names its
  cause, and that a sampled snapshot has its eighteen buckets.
- The LZ4 and zstd libraries are functions with stated laws: decompression
  inverts compression, LZ4 output is at most the declared length, zstd output at
  most the given limit, and bulk zstd frames carry their content size (section
  3.1.1.1.4 of RFC 8878).
- The gate's generation is an unbounded number, `read` waits only for a writer
  that holds the lock, and a thread releases its frames in reverse order.
- CRC32C is the bit-serial register over 32 bits; the ratio threshold is a real.
- Object keys and texts of the accounting documents are enumerations with one
  catch-all each.
- The binary heap is modelled by its contract: a pop removes a least element.
- Path rules are those of Unix.
- Record payloads in the database verifier are any fixed function of family and
  ordinal.

Where the code does not meet a property one might expect, the model keeps the
code, shows an input and states the exact condition:

- An evaluation can outlive its hold (`GateIsolation.EvaluationCanOutliveItsHold`);
  it never does exactly when no token evaluation is open at a drop
  (`GateIsolation.FreshExactlyWhenIdle`), as when the workers were joined
  (`GateIsolation.FreshWhenWorkersJoined`).
- Compressed data over 64 MiB does not come back (`Codec.LargeBlockIsRefused`,
  `Codec.LargeWalValueIsRefused`; conditions in `Codec.FrameRoundTrip` and
  `Codec.WalRoundTrip`).
- Names wider than their padding lose the tuple order
  (`CloudLayout.WideFamilySortsEarly`, `CloudLayout.WideLevelSortsEarly`;
  conditions in `CloudLayout.OrderHoldsExactly` and
  `CloudLayout.CompactionOrderHoldsExactly`).
- A completed run is refused by its checker when its clock shows nothing between
  the opening query and the last reading, or more than the cell's budget
  (`RefusedRuns.Run`; condition in `Ingestion.SoundReportQualifies`).

## Model

| member | source | states |
|---|---|---|
| `FailpointGate.StepKeepsInv` | src/failpoints.rs:67-202 | every enabled step of any thread keeps the gate invariant: an odd generation only under a writer, depth at most one, a positive depth only under a held read lock, no reader while a writer holds, and tokens never ahead of the generation |
| `FailpointGate.RunKeepsInv` | src/failpoints.rs:67-202 | the invariant holds in every state of every run from an idle gate, for any number of threads and any interleaving |
| `GateIsolation.GenerationGrows` | src/failpoints.rs:180-202 | the generation never decreases along a run |
| `GateIsolation.TokenProvenance` | src/failpoints.rs:82-108 | a usable token found anywhere in a reachable state was captured by the holder itself, at an earlier step of that same hold; how it is handed on from there is `GateExemption.ChainIsExempt` |
| `GateExemption.PassesExactlyWhenExempt` | src/failpoints.rs:67-73 | in every reachable state a thread passes the gate without waiting exactly when it owns it, is inside a read scope of its own, or carries the current hold's token; any other goes to wait, at an evaluation and at a scope alike |
| `GateExemption.CaptureHandsOn` | src/failpoints.rs:88-108 | a worker started with what a thread outside any scope captures skips the gate exactly when that thread does, for every generation |
| `GateExemption.ChainIsExempt` | src/failpoints.rs:88-108 | over whole runs: along any chain of captures that starts at the holder, each link spawned with or running under what the link before captured, every worker passes the gate for as long as that hold lasts |
| `GateExemption.JoinComesBackInTime` | src/runtime/actors/compaction/pool.rs:33-40 | a wait for the n-th task of a thread ends only after that thread has reported n completions or has finished |
| `GateIsolation.HoldIsContinuous` | src/failpoints.rs:180-202 | between two states with the same odd generation the same thread held the gate throughout |
| `GateIsolation.ReachableStateShape` | src/failpoints.rs:60-65 | in every reachable state: depth is at most one, a scope implies a held read lock, readers and a writer exclude each other |
| `GateIsolation.HoldIsolation` | src/failpoints.rs:122-172 | while one thread holds the write side, any other thread let into an evaluation or a read scope skipped the gate with a token captured by that holder during that same uninterrupted hold; nobody gets in through the lock |
| `GateIsolation.TokensLapse` | src/failpoints.rs:180-194 | once the guard bumps the generation, no token of that hold matches in any later state |
| `GateIsolation.OpenEvaluation` | src/failpoints.rs:122-133 | an evaluation still open while another thread holds the gate was admitted by token, never by lock or scope |
| `GateIsolation.EvaluationCanOutliveItsHold` | src/failpoints.rs:180-202 | a concrete run in which an evaluation admitted by token is still open while a later test holds the gate: the code does not prevent this by itself |
| `GateIsolation.FreshExactlyWhenIdle` | src/failpoints.rs:75-108 | no evaluation ever outlives its hold exactly when no token evaluation is open at any drop of a guard |
| `GateIsolation.FreshWhenWorkersJoined` | src/failpoints.rs:75-108 | the caller's condition: if every guard is dropped only after every other thread carrying the hold's token has been joined, no evaluation outlives its hold in any state |
| `GateProgress.RunKeepsDiscipline` | src/failpoints.rs:75-108 | in every state of a disciplined run each wait is sound: no member of the current hold's team waits at the gate, and a holder or member waits only for members, be it for a thread's end or a task's completion; threads may adopt any captured token at any time |
| `GateProgress.WaitLowersRank` | src/failpoints.rs:121-172 | each edge of the wait-for relation goes to a thread of strictly lower rank |
| `GateProgress.NoWaitCycle` | src/failpoints.rs:75-172 | no reachable state of a disciplined run has a cycle of waits |
| `GateProgress.NoDeadlock` | src/failpoints.rs:75-202 | while some started thread is unfinished some thread has an enabled step, and the run extended by it is disciplined again; waits are those at the gate, for a thread's end and for the completion of a pool thread's task |
| `GateProgress.TokenRunIsDisciplined` | src/failpoints.rs:75-108 | where workers keep the token they were spawned with, it is enough that owners and token holders join only holders of the live token |
| `GateProgress.PoolRunIsDisciplined` | src/runtime/actors/compaction/pool.rs:26-110 | a pool worker spawned without a token that takes up the test's token twice, with none in between, is covered; the test waits for the completion of its first task and joins it at the end |
| `Crc32c.FeedBack` | src/codec.rs:323-336 | the register runs backwards: if two strings of n bits end in registers that agree from bit j on, with n + j at most 32, the starts agree from bit n + j on, and equal starts mean equal strings |
| `Crc32c.SameTailInjective` | src/codec.rs:346-371 | feeding the same tail keeps different registers different |
| `Crc32c.ChecksumDetectsBurst` | src/codec.rs:346-371 | two messages of equal length that differ only within 32 adjacent bits have different checksums |
| `Crc32c.ChecksumDetectsFourBytes` | src/codec.rs:346-371 | the same for any change confined to four adjacent bytes, at any position of a message of any length |
| `Crc32c.SealDetectsBurst` | src/codec.rs:323-336 | two messages, each followed by its own little-endian checksum, that differ only within 32 adjacent bits of the whole are the same, also where the window straddles message and checksum |
| `Crc32c.SealDetectsOdd` | src/codec.rs:323-336 | two messages of equal length, each followed by its own checksum, never differ in an odd number of bits, as the polynomial has an odd number of taps |
| `Crc32c.ProbeChecksum` | src/codec.rs:323-336 | a check value that fixes polynomial, preset and final complement: the bytes FF FF FF FF 80 have checksum 0x7D09C487 |
| `Codec.BurstIsReported` | src/codec.rs:346-371 | a sealed block damaged within 32 adjacent bits anywhere (payload, algorithm byte, stored checksum or across their borders) decodes to a checksum mismatch |
| `Codec.FourByteDamageIsReported` | src/codec.rs:346-371 | the same for damage within four adjacent bytes anywhere in the block |
| `Codec.OddDamageIsReported` | src/codec.rs:346-371 | a sealed block in which any odd number of bits changed, however far apart, decodes to a checksum mismatch |
| `Codec.TrailerDamageIsReported` | src/codec.rs:346-371 | a sealed block with any other stored checksum decodes to a checksum mismatch |
| `Codec.FramedIsSealed` | src/codec.rs:323-336 | every framed block carries the checksum of its payload and algorithm byte |
| `Codec.FrameRoundTrip` | src/codec.rs:323-380 | for data of any length, decoding a framed block returns the data exactly when it is at most 64 MiB or the policy does not compress it (too short, no algorithm, or none that pays); a larger compressed block below 4 GiB is refused for its declared size |
| `Codec.LargeBlockIsRefused` | src/codec.rs:307-314 | one byte over 64 MiB under a fixed LZ4 policy: framing succeeds and the block it wrote is refused |
| `Codec.RawExactly` | src/codec.rs:165-189 | a block is stored raw exactly when the policy does not compress its data, a condition on data and policy alone |
| `Codec.CodesAreExact` | src/codec.rs:15-33 | the bytes 0, 1, 2 and 3 stand for the four algorithms, each for its own, and no other byte for any |
| `Codec.ShortOrNeverIsRaw` | src/codec.rs:165-189 | under 256 bytes, or under the policy of no compression, the framed block is the data, code 0 and the seal |
| `Codec.FixedUsesItsAlgorithm` | src/codec.rs:165-215 | from 256 bytes on a fixed policy frames that very library's output, zstd at its own level, under that algorithm's code, and fails exactly when that library fails |
| `Codec.AdaptiveKeepsTheSmallest` | src/codec.rs:217-243 | from 256 bytes on an adaptive policy frames the output of one of its algorithms that qualifies and is the smallest of all that do, under its code, and the raw data exactly when none qualifies |
| `Codec.QualifiesExactly` | src/codec.rs:245-275 | the exact threshold, multiplied out: smaller than the data, smaller by the minimum savings, and at most the ratio times the data, sizes beyond 32 bits counting as the largest that fits |
| `Codec.ReservationIsLength` | src/codec.rs:385-400 | the reservation for a framed block that decodes is the length of its data |
| `Codec.UnsizedFrame` | src/codec.rs:105-158 | a zstd frame without a content size is decoded into at most 64 KiB, under a reservation of 64 MiB |
| `Codec.UnknownCodeIsReported` | src/codec.rs:346-371 | a sealed block is refused for its code exactly when that is above 3 |
| `Codec.HeaderErrors` | src/codec.rs:105-158 | a missing size prefix, an unavailable content size and a declared size over 64 MiB are each reported exactly when present |
| `Codec.HintCoversDecoding` | src/codec.rs:105-158 | whenever decoding succeeds the hint succeeds, the output is within its decode limit and that within its reservation limit |
| `Codec.ReservationCoversDecoding` | src/codec.rs:385-400 | for arbitrary bytes, if trailer decoding succeeds the size query succeeds with at least the decoded length, and a compressed block never reserves more than 64 MiB |
| `Codec.QualifiesDownward` | src/codec.rs:245-275 | a smaller output of a qualifying one qualifies too |
| `Codec.BestIsSmallest` | src/codec.rs:217-243 | the kept candidate is the smallest successful output, the earliest one on ties, if that one qualifies, and nothing otherwise |
| `Codec.CompressAdaptive` | src/codec.rs:217-243 | the loop returns the kept candidate, or the raw data when none was kept |
| `Codec.ChosenLength` | src/codec.rs:217-243 | the choice is never longer than the data, and its length does not depend on the order of the candidate list |
| `Codec.IsLikelyCompressible` | src/codec.rs:410-431 | the counting loop answers whether the first 256 bytes have at most 128 distinct values |
| `Codec.CompressibleExactly` | src/codec.rs:410-431 | a value passes exactly when it is not empty and some 128 byte values suffice for its first 256 bytes |
| `Codec.WalRoundTrip` | src/codec.rs:453-497 | a WAL value of 256 bytes or more that looks compressible and that LZ4 shortens is stored as that output with marker 1, any other as it is without a marker; it decodes to the value exactly when at most 64 MiB long or not compressed |
| `Codec.WalMarkerIsCode` | src/codec.rs:485-497 | no marker means raw, a marker up to 3 the algorithm of that code, any other an error |
| `Codec.LargeWalValueIsRefused` | src/codec.rs:485-497 | a value one byte over 64 MiB that a lawful library shortens does not come back |
| `Codec.VerbatimIsLawful` | src/codec.rs:192-215 | the laws asked of the two compression libraries can be met |
| `CloudLayout.FlushNamesParseExactly` | src/cloud_layout.rs:84-97 | the parser returns a tuple exactly for the canonical name of that tuple, for all u32 and u64 values, wider than the padding too |
| `CloudLayout.CompactionNamesParseExactly` | src/cloud_layout.rs:102-137 | the same for partition names |
| `CloudLayout.NamesAreDistinct` | src/cloud_layout.rs:84-109 | different tuples have different names, and no flush name is a partition name |
| `CloudLayout.FlushNamesSortBySequence` | src/cloud_layout.rs:76-86 | within a family and level, names sort as their sequences, over all u64 |
| `CloudLayout.CompactionNamesSortByGeneration` | src/cloud_layout.rs:99-109 | within a family and level, partition names sort as (generation, partition) |
| `CloudLayout.FlushSortsBeforePartitions` | src/cloud_layout.rs:99-109 | a flush name sorts before every partition of the same generation |
| `CloudLayout.FlushNamesSortByIdentity` | src/cloud_layout.rs:76-86 | with family at most 999999 and level at most 99 the order is that of the whole tuples |
| `CloudLayout.CompactionNamesSortByIdentity` | src/cloud_layout.rs:99-109 | the same for partition names |
| `CloudLayout.WideFamilySortsEarly` | src/cloud_layout.rs:76-86 | beyond the padding the order fails: family 1000000 sorts before family 999999 whatever the sequences |
| `CloudLayout.WideLevelSortsEarly` | src/cloud_layout.rs:76-86 | likewise level 100 sorts before level 99 |
| `CloudLayout.OrderHoldsExactly` | src/cloud_layout.rs:76-86 | flush names of families and levels up to given bounds sort by the whole tuple exactly when the bounds are at most 999999 and 99 |
| `CloudLayout.CompactionOrderHoldsExactly` | src/cloud_layout.rs:99-109 | the same bounds are exact for partition names |
| `CloudLayout.PersistedNamesExactly` | src/cloud_layout.rs:45-65 | the persisted-name check accepts exactly the names without slash, backslash, colon and NUL that end in .sst with something before it |
| `CloudLayout.GeneratedNamesArePersistable` | src/cloud_layout.rs:45-109 | every generated name passes that check |
| `CloudLayout.FlushNameLayout` | src/cloud_layout.rs:76-86 | within the padding a flush name is six digits of family, two of level and twenty of sequence between underscores, and the suffix, each spelling its number |
| `CloudLayout.CompactionNameLayout` | src/cloud_layout.rs:99-109 | a partition name has ten more digits, those of the partition |
| `Decimal.PaddedOrder` | src/cloud_layout.rs:76-86 | zero-padded numbers that fit their width sort numerically |
| `Decimal.ParseExactly` | src/cloud_layout.rs:84-97 | the unsigned parser reads digits, with or without a plus sign, as their number when that is below the limit |
| `Decimal.ParsedIsDigits` | src/cloud_layout.rs:84-97 | and it reads nothing else |
| `Merge.SortedUnique` | benches/tier2_subsystem_iterator_multi_sst.rs:63-70 | a multiset of entries has only one order by (key, table id) |
| `Merge.Top` | benches/tier2_subsystem_iterator_multi_sst.rs:63-70 | the popped element is a least one of the heap |
| `Merge.MergeIterator.constructor` | benches/tier2_subsystem_iterator_multi_sst.rs:84-103 | every non-exhausted source is represented in the heap, nothing is lost and nothing is counted yet |
| `Merge.MergeIterator.Refill` | benches/tier2_subsystem_iterator_multi_sst.rs:105-122 | the source a popped entry came from is advanced and its next entry pushed, keeping what is still to come |
| `Merge.MergeIterator.Next` | benches/tier2_subsystem_iterator_multi_sst.rs:105-122 | returns a least pending entry and removes exactly it, counting one comparison; none exactly when nothing is pending |
| `Merge.MergeAll` | benches/tier2_subsystem_iterator_multi_sst.rs:78-127 | the emitted sequence is the multiset union of the sources, its keys ascend and equal keys come in ascending table id; the comparison count is its length |
| `Merge.DistinctKeys` | benches/tier2_subsystem_iterator_multi_sst.rs:206-215 | the dedup loop counts exactly the distinct keys |
| `Histogram.BucketIndexIsBinOf` | src/common/latency_histogram.rs:20-46 | the constant-time bin computation finds the first bin whose bound reaches the sample |
| `Histogram.P95` | examples/checkpoint_campaign_readback/accounting.rs:155-180 | on 80 bins the loop returns the bounds of the one bin up to which at least 95 in 100 of the counts lie and below which fewer do, none for an empty histogram; its impossible error cannot occur |
| `Histogram.P95Exactly` | src/metadata/accounting.rs:249-268 | the reported bin is the one, and the only one, in which the share of 95 in 100 is reached, counted and not by rank |
| `Histogram.P95Exists` | src/metadata/accounting.rs:249-268 | every non-empty list of samples has a value at which at least 95 in 100 of them are no larger and below which fewer are |
| `Histogram.P95Unique` | src/metadata/accounting.rs:249-268 | and only one |
| `Histogram.BinWidths` | src/common/latency_histogram.rs:4-30 | 64 bins of a quarter millisecond, then bins that double, 80 in all |
| `Histogram.WindowHistogram` | src/metadata/accounting.rs:230-245 | the difference of two cumulative histograms is the histogram of the samples in between |
| `Histogram.WindowPercentileBin` | examples/checkpoint_campaign_readback/accounting.rs:155-180 | the bin read from the difference of two cumulative histograms is that of the value at which at least 95 in 100 of the samples in between are no larger and below which fewer are |
| `Histogram.WindowPercentileIsDecisive` | benches/bench_support/checkpoint_gate.rs:40-46 | the bounds contain that value, and the 5 ms test on the lower bound is the test on the value itself |
| `CounterTree.SubtractSucceedsExactly` | examples/checkpoint_campaign_readback/accounting.rs:96-125 | the difference of two documents exists exactly when they have the same topology, every leaf is a number, and no number decreased |
| `CounterTree.PlusInvertsMinus` | examples/checkpoint_campaign_readback/accounting.rs:96-125 | adding the difference back to the earlier document gives the later one |
| `CounterTree.DominatesTransitive` | examples/checkpoint_campaign_readback/accounting.rs:96-125 | dominance of documents is transitive |
| `CounterTree.DifferencesTelescope` | examples/checkpoint_campaign_readback/accounting.rs:96-125 | over three dominated counter trees the outer difference is the sum of the inner two |
| `Accounting.SizeClassOfU64` | src/metadata/accounting.rs:463-486 | the size class of every u64 length is within the 64 classes |
| `Accounting.SizeClassIsLogarithm` | src/metadata/accounting.rs:463-486 | the class of a table is the binary logarithm of its length |
| `Accounting.OwnBucket` | src/metadata/accounting.rs:435-439 | an event updates the bucket of its own origin and medium (a compaction that of its medium under compactions) and no other; late writes and missing starts belong to none |
| `Accounting.ReplayKeepsLaws` | src/metadata/accounting.rs:416-503 | after any run whose overflow flag is clear, every bucket's histograms cover its attempts and flushes and its outcome counters are consistent |
| `Accounting.CleanReplay` | src/metadata/accounting.rs:578-607 | after any run of successful operations nothing failed and every checkpoint was durable and completed |
| `Accounting.WindowIsCovered` | src/metadata/accounting.rs:307-356 | if both ends are covered, so is the window between them |
| `Accounting.LaterDominates` | src/metadata/accounting.rs:307-356 | a later snapshot of one run never has a smaller counter, so every window of it exists |
| `Accounting.DeltaExactly` | src/metadata/accounting.rs:307-356 | a window exists exactly between two snapshots of one owner, the later untainted and the earlier without overflow, in which no measured field decreased, and added to the earlier snapshot it gives the later one in every field |
| `RunTotals.CountersAreTotals` | src/metadata/accounting.rs:129-165 | unless something overflowed, each of the 19 counters of a bucket is the sum of what the run's events of that bucket's own origin and medium added |
| `RunTotals.HistogramIsBinned` | src/metadata/accounting.rs:222-227 | unless something overflowed, each of the two latency histograms of a bucket is the binning of exactly the checkpoint durations, or publication durations, of the events of its own origin and medium |
| `RunTotals.SizesAreClassed` | src/metadata/accounting.rs:463-486 | unless something overflowed, each size class of a bucket counts exactly the committed tables of its own origin and medium in that class |
| `RunTotals.PayloadsAreTotals` | src/metadata/accounting.rs:578-607 | unless something overflowed, the issued and the returned bytes of each payload are the sums over the operations of the bucket's own origin and medium |
| `RunTotals.BucketWindowHolds` | src/metadata/accounting.rs:307-356 | the window between two snapshots holds exactly what the events in between amount to, bucket by bucket for its own origin and medium, in every field but the gauge: counters, payload bytes, both latency histograms and size classes |
| `RunTotals.MissesAreTrue` | benches/bench_support/checkpoint_gate.rs:40-46 | the two misses are the stated ratios of the totals over the ordinary local flushes to persistent media between the two snapshots, and the second also asks that fewer than 95 in 100 of their checkpoints took less than 5 ms |
| `RunTotals.OverflowExactly` | src/metadata/accounting.rs:123-165 | an event on a bucket whose counts fit raises the overflow flag exactly when a counter, payload, gauge, histogram bin or size class would pass 64 bits, a duration lies beyond the last bin, a table is empty, an operation ends that was not open, or its ledger was tainted |
| `RunTotals.ClearExactly` | src/metadata/accounting.rs:123-165 | over whole runs: the flag is clear exactly when the owner is real and no event so far was such |
| `AccountingJson.ShapeReadsUntainted` | examples/checkpoint_campaign_readback/accounting.rs:56-94 | a document of a snapshot, whatever else it holds, has the expected shape exactly when the snapshot is owned and untainted |
| `AccountingJson.IntegrityReadsAllSettled` | examples/checkpoint_campaign_readback/accounting.rs:184-221 | the reader accepts a document's integrity exactly when its snapshot is untainted and every persistent bucket of it is settled |
| `AccountingJson.BucketWindowsAgree` | examples/checkpoint_campaign_readback/accounting.rs:127-149 | per bucket, the reader's difference of the documents is the document of the engine's difference, and exists exactly then |
| `AccountingJson.WindowsAgree` | examples/checkpoint_campaign_readback/accounting.rs:127-149 | on untainted snapshots the reader's window exists exactly when the engine's does and is its document; tainted ones are refused |
| `AccountingJson.WindowsTelescope` | examples/checkpoint_campaign_readback/accounting.rs:127-149 | for any three documents: when the two inner windows exist so does the outer one, and in every one of its 18 buckets each of the four measured fields is the sum of theirs |
| `CheckpointGate.CheckBucket` | benches/bench_support/checkpoint_gate.rs:65-112 | pushes exactly the faults of one bucket, in order |
| `CheckpointGate.CheckPersistentOperations` | benches/bench_support/checkpoint_gate.rs:59-114 | pushes the faults of every persistent bucket and of no other |
| `CheckpointGate.CheckWindow` | benches/bench_support/checkpoint_gate.rs:17-39 | collects the reasons of a window in order |
| `CheckpointGate.Measure` | benches/bench_support/checkpoint_gate.rs:40-46 | computes the two misses and the percentile bounds |
| `CheckpointGate.Verdict.constructor` | benches/bench_support/checkpoint_gate.rs:17-57 | valid exactly without reasons, and a miss is named exactly when valid |
| `CheckpointGate.Verdict.Seal` | benches/bench_support/checkpoint_gate.rs:118-126 | appends the settlement's reasons, keeps the verdict coherent and the measured ratios unchanged |
| `CheckpointGate.FinalVerdict` | benches/tier4_system_checkpoint_write_amplification.rs:494-565 | valid exactly when the window and both settled owners have no reason; the ratios are the window's alone |
| `CheckpointGate.SealsOnlyAdd` | benches/bench_support/checkpoint_gate.rs:118-146 | over any sequence of seals earlier reasons stay, and the verdict is valid exactly while every seal found nothing |
| `CheckpointGate.FaultIsReportedExactly` | benches/bench_support/checkpoint_gate.rs:59-114 | a fault is reported for an origin exactly when that origin's persistent bucket has it |
| `CheckpointGate.EvaluationReasonsExactly` | benches/bench_support/checkpoint_gate.rs:17-39 | every reason against a window is given exactly for its own cause, and no other reason is given |
| `CheckpointGate.SettlementReasonsExactly` | benches/bench_support/checkpoint_gate.rs:128-146 | the same for the reasons a settled owner adds |
| `CheckpointGate.NoReasonsMeansSettled` | benches/bench_support/checkpoint_gate.rs:59-114 | no reason is added exactly when every persistent bucket is settled |
| `GateAgreement.GatesAgree` | examples/checkpoint_campaign_readback/accounting.rs:223-265 | the reader's gate on a document of a window is the run's own verdict, both in whether it passes and in all its values |
| `GateAgreement.ReadBackAgrees` | examples/checkpoint_campaign_readback/accounting.rs:127-265 | recomputing the verdict from the two raw snapshot documents gives exactly the recorded verdict |
| `GateAgreement.SettlementAgrees` | examples/checkpoint_campaign_readback/accounting.rs:295-307 | no settlement reason of a real owner exactly when the reader accepts its document: sound, of that owner, and with no active operation in any bucket |
| `GateAgreement.EvidenceAgrees` | examples/checkpoint_campaign_readback/accounting.rs:267-345 | for all documents of a run: the reader accepts window document, snapshots and gate exactly when the window document is the final one of a run that accepted itself, its window opened idle and untainted and took time, every measured row was acknowledged, the final snapshot continues the measured one and the reopened owner is new |
| `ReaderSoundness.ShapeExactly` | examples/checkpoint_campaign_readback/accounting.rs:56-94 | any document at all has the expected shape exactly when it describes some untainted snapshot of a real owner |
| `ReaderSoundness.WindowDocuments` | examples/checkpoint_campaign_readback/accounting.rs:127-149 | of any two such documents: if the reader finds a window, the engine has one between their snapshots and the reader's is a document of it |
| `ReaderSoundness.AcceptedEvidenceIsSound` | examples/checkpoint_campaign_readback/accounting.rs:267-345 | for any four documents and any window document, whoever wrote them: if the reader accepts, they describe a run that accepts itself, whose window opened idle and untainted, whose final snapshot continues it, whose reopened owner is another, and the recorded gate is the verdict on that window |
| `GateAgreement.GaugeCountsOpen` | src/metadata/accounting.rs:416-433 | the active gauge of a bucket is the number of operations of its own origin and medium begun and not yet folded |
| `GateAgreement.EscapesAreReported` | src/metadata/accounting.rs:410-414 | a snapshot reports late writes or missing starts exactly when the run had one |
| `GateAgreement.CleanWindowIsSettled` | benches/bench_support/checkpoint_gate.rs:59-114 | every window of a clean run from which nothing escaped exists, and is settled exactly when no persistent operation is open at its end |
| `GateAgreement.CleanRunSettles` | benches/bench_support/checkpoint_gate.rs:128-146 | a clean run settles without reasons exactly when nothing escaped and every operation was folded, and the reader then accepts it |
| `CommitBackpressure.AwaitClear` | benches/bench_support/checkpoint_commit.rs:71-92 | waits until cleared; every wait is counted as clearing, timed out or stalled, each is at most one second and admitted before the deadline; ends once the clock reaches it |
| `CommitBackpressure.Attempt` | benches/bench_support/checkpoint_commit.rs:58-93 | one attempt and its waits; failures are the original ones, exhaustion only at the deadline |
| `CommitBackpressure.CommitWithBackpressure` | benches/bench_support/checkpoint_commit.rs:45-94 | terminates on every script; success is exactly one accepted commit, the counters are what the recorded calls amount to, no call is admitted at or past the deadline captured at the start, a failure is the original one or the clock at that deadline, and a first attempt that is in time and accepted succeeds |
| `CommitBackpressure.CountersCountCalls` | benches/bench_support/checkpoint_commit.rs:45-94 | what the calls amount to: each counter is the number of its calls, and the last stall is the latest one among commits and waits |
| `CommitBackpressure.ElapsedIsTimeWaiting` | benches/bench_support/checkpoint_commit.rs:71-92 | the saturating running sum is the whole time between the readings around the waits, cut off once at 64 bits |
| `World.DeadlineExactly` | benches/bench_support/checkpoint_commit.rs:45-57 | time is left exactly while neither the call's budget, nor thirty seconds, nor the cell's deadline has passed |
| `CommitBackpressure.FinishedChains` | benches/bench_support/checkpoint_commit.rs:45-94 | the laws of finished calls compose over any number of calls |
| `CommitBackpressure.FinishedCompletes` | examples/checkpoint_campaign_readback/commit_backpressure.rs:16-49 | after any number of successful calls from an unused tally the reader's boundary check accepts |
| `CommitBackpressure.CompletedBoundaryExactly` | examples/checkpoint_campaign_readback/commit_backpressure.rs:16-49 | the reader accepts a tally exactly when that many strict commits leave it in an unused one and it fits 64 bits |
| `CommitBackpressure.SplitQualifiesExactly` | examples/checkpoint_campaign_readback/commit_backpressure.rs:86-118 | for any two tallies: the window check accepts exactly when the first is that of the warmup, the second that of all commits, the measured commits lead from one to the other (up to the text of a stall they did not add), and the clock is positive, at most 900 s and covers the waits |
| `CommitBackpressure.WarmupIsATenth` | benches/tier4_system_checkpoint_write_amplification.rs:40-47 | the warmup is the least number of which ten times is at least the cycles, and the rest is measured |
| `CommitBackpressure.FinishedQualifies` | examples/checkpoint_campaign_readback/commit_backpressure.rs:86-118 | for every split into warmup and measured commits the reader's window check accepts exactly when the measured clock is positive, within budget and covers the waits |
| `MetadataBoundary.ActiveAmongIsZero` | benches/bench_support/checkpoint_boundary.rs:31-39 | the saturating sum is zero exactly when every persistent gauge is |
| `MetadataBoundary.SampleOnce` | benches/bench_support/checkpoint_boundary.rs:69-94 | one query, admitted before the deadline; an idle sample is accepted only if also read before it |
| `MetadataBoundary.PauseOnce` | benches/bench_support/checkpoint_boundary.rs:95-106 | one pause of at most 1 ms, admitted before the deadline |
| `MetadataBoundary.CaptureBoundary` | benches/bench_support/checkpoint_boundary.rs:58-108 | terminates; an accepted boundary is persistent-idle and read before the deadline, with one sample more than active ones and than pauses, and paused time within the clock; a failure is the query's own or the clock at the deadline; a first idle sample in time is accepted |
| `MetadataBoundary.CountersCountCalls` | benches/bench_support/checkpoint_boundary.rs:58-108 | what the calls amount to: samples, samples that found persistent work, and pauses are counted, requested pauses added up and the largest kept |
| `MetadataBoundary.PauseKeepsLaw` | benches/bench_support/checkpoint_boundary.rs:95-106 | requested pauses stay between their number and their number times the largest |
| `MetadataBoundary.ActiveReadsAgree` | examples/checkpoint_campaign_readback/metadata_boundary.rs:31-50 | the number the reader takes from a document is the loop's own, an error exactly where that would pass 64 bits, and zero exactly when the snapshot is idle |
| `MetadataBoundary.ReadNeedsNinePersistent` | examples/checkpoint_campaign_readback/metadata_boundary.rs:31-50 | from any document a number is read only if it has eighteen buckets, nine of them persistent |
| `MetadataBoundary.RecordAcceptedExactly` | examples/checkpoint_campaign_readback/metadata_boundary.rs:52-85 | the reader accepts a record exactly when it is that of one complete capture, in time and with its pauses in order, of an idle snapshot |
| `MetadataBoundary.CaptureIsAccepted` | examples/checkpoint_campaign_readback/metadata_boundary.rs:52-85 | every capture made with an unused record satisfies the reader's check |
| `Ingestion.Ingest` | benches/tier4_system_checkpoint_write_amplification.rs:415-476 | every run that completes has two sound captures, the warmup's and the measured number of strict commits, waits within the measured clock, which runs from the opening query to the last reading, one flush after each commit, and the window between its captures; every failure has its cause, in the opening and closing samples where it lies there; a run in which nothing has to be tried twice completes, after a known number of readings |
| `Ingestion.Finish` | benches/tier4_system_checkpoint_write_amplification.rs:374-413 | the closing capture lies inside the measured clock; a closing sample with fewer compactions than the opening one, or with no difference from it, is an error, and each error has its cause |
| `Ingestion.Cycle` | benches/tier4_system_checkpoint_write_amplification.rs:424-467 | one cycle: past the budget nothing is asked for; otherwise the opening capture when it is due, one strict commit, then one flush; a cycle whose calls succeed at once succeeds, and each error has its cause |
| `Ingestion.SoundReportQualifies` | examples/checkpoint_campaign_readback/commit_backpressure.rs:86-118 | such a run satisfies both readers: the commit check exactly when the measured clock is positive and within the cell budget, the boundary check exactly when the owner is real |
| `Ingestion.BoundariesQualifyExactly` | examples/checkpoint_campaign_readback/metadata_boundary.rs:89-117 | for any two recorded boundaries: the reader accepts exactly when both are sound captures of one real owner, their counts fit, and the closing one lies in the measured clock |
| `RefusedRuns.Run` | benches/tier4_system_checkpoint_write_amplification.rs:415-476 | for every cell with a window: on a clock that stands still the run completes with a sound report whose measured clock is zero, and on one that jumps at the last reading with one over the budget; the commit check refuses both |
| `Ingestion.ReportReadsBack` | examples/checkpoint_campaign_readback/accounting.rs:127-265 | the gate the reader recomputes from a completed run's raw snapshots is the run's own verdict on its window |
| `DatabaseVerifier.KeyOrder` | benches/tier4_system_checkpoint_write_amplification.rs:49-53 | within a family big-endian keys sort, and are equal, as their ordinals |
| `DatabaseVerifier.KeysSortByRecord` | benches/tier4_system_checkpoint_write_amplification.rs:49-53 | keys of any two (family, ordinal) pairs are equal exactly for equal pairs and sort as the pairs |
| `DatabaseVerifier.CommitCycle` | benches/tier4_system_checkpoint_write_amplification.rs:203-216 | one transaction writes exactly its rows |
| `DatabaseVerifier.CommitAll` | benches/tier4_system_checkpoint_write_amplification.rs:415-476 | after all cycles each family holds what its own cycles committed |
| `DatabaseVerifier.CommittedExactly` | benches/tier4_system_checkpoint_write_amplification.rs:203-216 | a family's map holds exactly the keys of the ordinals written to it |
| `DatabaseVerifier.CommittedIsKeyed` | benches/tier4_system_checkpoint_write_amplification.rs:203-216 | each committed key holds the payload of its ordinal |
| `DatabaseVerifier.OrdinalsIncrease` | benches/tier4_system_checkpoint_write_amplification.rs:257-258 | scan position to ordinal is strictly increasing |
| `DatabaseVerifier.PositionsAreWritten` | benches/tier4_system_checkpoint_write_amplification.rs:257-258 | every scan position is an ordinal written to the family |
| `DatabaseVerifier.WrittenHasPosition` | benches/tier4_system_checkpoint_write_amplification.rs:257-258 | every written ordinal has a scan position |
| `DatabaseVerifier.AscendingIsUnique` | benches/tier4_system_checkpoint_write_amplification.rs:248-272 | a set of rows has only one listing in key order |
| `DatabaseVerifier.CheckPoints` | benches/tier4_system_checkpoint_write_amplification.rs:231-247 | the point-read loop succeeds exactly when every expected row reads back, and counts them; an error names what an expected row's read showed |
| `DatabaseVerifier.CheckScan` | benches/tier4_system_checkpoint_write_amplification.rs:248-272 | the scan loop succeeds exactly when the scan is the expected listing; an error names what the scan showed |
| `DatabaseVerifier.MatchesExactlyIntact` | benches/tier4_system_checkpoint_write_amplification.rs:218-275 | what the two passes check is exactly that reads and scan equal the committed map |
| `DatabaseVerifier.Verify` | benches/tier4_system_checkpoint_write_amplification.rs:218-275 | succeeds exactly when every family exists and its reads and ordered scan equal its committed map; an error is a missing family, or what a read or the scan of a family showed |
| `Preload.StagingIsMonotone` | src/memtable/mod.rs:34-38 | the saturating staging bound is monotone in the number of points |
| `Preload.StagingExactly` | src/memtable/mod.rs:34-38 | the saturating chain is twice the header and all points, cut off once at 64 bits |
| `Preload.LargestBatch` | benches/bench_support/ycsb.rs:783-806 | for any monotone cost the search returns the largest admissible size up to 50000, or one when even one point does not fit |
| `Preload.PreloadBatchOps` | benches/bench_support/ycsb.rs:783-806 | the same for the engine's staging bound, 16-byte keys and at most 50000 of them |
| `Preload.RetryWriteStall` | benches/bench_support/ycsb.rs:845-871 | terminates; success means the operation took effect exactly once, failure at most once, and not at all unless the last attempt itself failed; each rejected attempt is followed by waits until one clears and only then by the next; attempts and waits of at most 50 ms begin before the deadline captured at the start; it ends in error only with the error of its last call or with the clock at the deadline; an operation accepted after any number of stalls, each cleared in time, succeeds |
| `Preload.LoadRange` | benches/bench_support/ycsb.rs:808-838 | success adds consecutive batches that cover the worker's range, failure batches that cover an initial part; a failure is that of a call made, or 30 s passed between two readings |
| `Preload.Turn` | benches/bench_support/ycsb.rs:753-774 | whichever worker moves next, the keys up to where each worker has come stay held exactly once and all others not at all, each batch is as large as allowed, and each failure has its cause |
| `Preload.WorkerCountExactly` | benches/bench_support/ycsb.rs:741-742 | as many workers as asked for, but no more than keys, and at least one |
| `Preload.ShareIsLeast` | benches/bench_support/ycsb.rs:741-742 | each worker's share is the least with which all of them cover the keys |
| `Preload.Joined` | benches/bench_support/ycsb.rs:764-771 | the joined result is the first error in the order of the workers |
| `Preload.TilesHoldExactly` | benches/bench_support/ycsb.rs:808-838 | consecutive batches hold each key of their range exactly once and no other |
| `Preload.HoldingIgnoresOrder` | benches/bench_support/ycsb.rs:753-774 | how often a key is held depends only on which batches were committed, not on their order |
| `Preload.LoadInitialDataset` | benches/bench_support/ycsb.rs:734-781 | with the workers taking turns in any order: on success every key is in exactly one committed batch and one flush followed, after a failure no key is in two and a flush was made only if every key was loaded, all for every order of the committed batches; each batch is the largest the local bytes and its worker's range allow; an error is that of a commit, flush or wait that failed, or some retry ran 30 s, and if no call fails and none runs that long the load succeeds |

## Left out

- The engine itself (WAL, SST, memtable, compaction, leases, runtime): the model uses only what the listed code sees of it.
- The insides of LZ4 and zstd: abstract functions under the laws above.
- The heap's array layout and sifting: only that a pop removes a least element.
- Rounding of the single-precision ratio: the threshold is compared over the reals.
- Durations of 2^64 nanoseconds and more: events carry durations that fit, and the flag their conversion would raise is part of an operation's `tainted` outcome.
- The policy and identity fields of the campaign documents, file access and provenance: equality tests on constants.
- The pseudo-random payload bytes of a record: any function of family and ordinal takes their place.
- Progress reporting, tracing, status files, flush latencies and pressure samples of a measured run.
- Codec.FrameRoundTrip: which error a compressed block of 4 GiB and more ends in is not stated, only that it does not come back.
- Preload.LoadInitialDataset: workers take turns batch by batch in any order; one worker's retries and waits are not interleaved with another's calls, but since replies are arbitrary every worker meets every sequence of outcomes.
- Preload.RetryWriteStall: that an operation rejected with a write stall has taken no effect is an assumption about the engine (`Preload.Execute`), not a result.
- GateProgress.NoDeadlock: which pool thread takes up a queued task is not modelled; a wait for a task names the thread that completes it.
- CommitBackpressure.CommitWithBackpressure: attempt and wait counters are unbounded; the reader's checks are proved when they fit 64 bits.
- Ingestion.Ingest: the clock readings around a flush and the pressure samples, which only feed reports, are not modelled.
- Zipfian generators, workload mixes, client threads and watchdogs of the benchmarks.
- Configuration, type and diagnostics modules: they would only add easy members.
