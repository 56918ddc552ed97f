# Verified model of the turboquant benchmark and reader algorithms

A Dafny model of the self-contained algorithms in `contrib/` and `benchmarks/`, and of the quantiser
and packers in `pgext/`: the TQE1 record reader, the circuit breaker that guards cluster
submissions, the LRU cache simulator, the exact one-dimensional 2-means statistic with the transit
and flow statistics around it, the quantisers and scoring identities, and the streaming build and
ground-truth code. Loops and objects are modelled as methods and classes over arrays, sequences and
maps; expressions as functions. Each method is tied to a specification function or predicate, and
the lemmas prove what the documentation promises about it. `dafny verify dfyconfig.toml` checks
everything.

| Files | Part of the system |
|---|---|
| Tqe1Format, Tqe1Batch, BitPacking, WalshHadamard, WalshProperties, Rotations, Tqe1Decode, Tqe1File | TQE1 reader, from bytes to decoded vector |
| ScalarQuantizer, ExtensionPacking | the encoder of the Postgres extension: scalar quantiser and bit packers, against the reader |
| CircuitBreaker, SubmissionLoop, BreakerSafety, LoopMoves, QueueReading, ProbeProgress, EmptiedNamespace, QueueConservation | breaker, work queue, safety, exact transitions, progress and conservation over whole runs |
| LruCache | cache simulator and the compressed-against-uncompressed comparison |
| TwoMeans, TwoMeansInvariance, Gini, TransitFlow, FlowMatrix, AreaMeans | role statistics |
| KernelIdentity, ChannelCodebook, QuantileStart, CodebookOrder, GroupQuantizer, SettledBlocks, KvCache, PrunedScan, PrunedKernel | scoring in code space, key and value quantisation, early abandonment |
| TopK, BlockedTopK, Blocks, ShardMap, StreamingPartition, CellPlacement | streamed ground truth, partition and placement |
| Wrappers, Sums, Matrices, SortedSums, Extremes, RealArithmetic, Division, Positional, Permutations, IndexSets | shared mathematics |

Floats are modelled as `real`. Integer codes, bytes and accumulators are integers with their
ranges proved. A square root or `1/sqrt(d)` is a parameter that satisfies its equation, and random
draws are arbitrary inputs of the right shape.

## Where the code does less than its description

Each of these is a lemma, with the exact condition where there is one.

- A HALF_OPEN breaker waits on its probe, submitting nothing, exactly until an accepted listing in
  which an active job of the last accepted listing is missing, or which shows the probe's job as
  succeeded, failed, or active PROBE_OK seconds after the submission
  (`ProbeProgress.BlocksExactlyWhen`). A deletion therefore reopens the breaker exactly at a listing
  that shows some job and lacks an active one of the last accepted listing
  (`ProbeProgress.DeletedProbeReopensExactlyWhen`). A probe that is gone before any listing showed it
  is requeued while the breaker still waits for it, contrary to lines 10-12 of
  `benchmarks/nrp_breaker.py` (`ProbeProgress.LostProbeIsRequeued`, `ProbeProgress.LostProbeIsStuck`).
- When the namespace empties while the last accepted listing shows an active job, every listing is
  skipped, however long ago that listing is: line 143 compares with the last accepted listing where
  lines 18-19 speak of a tick ago. A vanished job is recorded only at the next listing that shows
  some job; until then the breaker keeps its state, nothing is requeued (against line 17) and nothing
  is submitted. A probe that is the only job is lost this way
  (`EmptiedNamespace.AllSkippedExactlyWhen`, `EmptiedNamespace.EmptiedNamespaceStalls`,
  `EmptiedNamespace.VanishedRecordedLate`, `EmptiedNamespace.LoneProbeIsNeverMissed`).
- The constructor takes any base quiet, but a base of WINDOW or less lets a probe out with
  THRESHOLD deletions still in the window; the 2700 seconds of `main` do not
  (`BreakerSafety.SafeExactlyWhen`).
- Every job is in exactly one place only if the initial queue file repeats no job name
  (`QueueConservation.EveryJobInOnePlace`).
- `pgext/src/codebook.rs` announces sixteen 4-bit Lloyd-Max centroids, but its table holds a 0 and
  repeats the last entry, and differs from the reader's at its inner ten entries: a 4-bit index of one,
  decoded by the other, need not give the nearest level (`ScalarQuantizer.TablesAgreeExactlyWhen`,
  `ScalarQuantizer.FourBitCodeMisread`). At 2 and 3 bits the tables agree.
- The compressed cache can lose at dimension 1, where codes and norm take more bytes than the float
  (`LruCache.NeverLosesExactlyFromDimTwo`).
- The kernel score differs from the reference cosine when the squared norm is clamped and the inner
  product is not 0 (`KernelIdentity.KernelScoreIsCosine`, `KernelIdentity.ClampedScoresDiffer`).
- Transit and off-diagonal flow agree only when no cross edge touches an abstaining area
  (`FlowMatrix.TransitAgreesExactlyWhen`, `FlowMatrix.TransitDisagrees`).
- A Lloyd iteration can leave the codebook unsorted, even from quantiles, exactly when the members of
  a centroid that equals the next one have a mean above it (`CodebookOrder.OrderKeptExactlyWhen`,
  `CodebookOrder.QuantileStartBreaksOrder`); the code sorts it afterwards.
- The streaming build rounds the cell edges down and the placement does not, so the two cell-aligned
  builds agree only when the shards divide the cells (`ShardMap.CutsAgreeExactlyWhen`,
  `CellPlacement.BuildsDisagree`).

## Model

| member | source | states |
|---|---|---|
| Tqe1Format.ParsesExactlyWhatIsWritten | contrib/tqe1_reader.py:90-127 | a record parses at an offset if and only if exactly its bytes stand there, and it consumes exactly those bytes; both versions, any buffer, any offset |
| Tqe1Format.PrefixFree | contrib/tqe1_reader.py:96-117 | every truncation of a record is an error, and the place of the cut says which: too short for a header, for the header of version 2, or for the codes |
| Tqe1Format.CorruptionIsNamed | contrib/tqe1_reader.py:98-115 | a wrong magic byte, version, bit width or rotation byte in a written record is reported as what it is |
| Tqe1Format.UniqueHead | contrib/tqe1_reader.py:90-127 | bytes begin with at most one record, so versions and records cannot be confused |
| Tqe1Format.LayoutIsExact | contrib/tqe1_reader.py:42-46 | the layout: a record stands at an offset exactly when magic, version, bits, dim, seed, norm, rotation (version 2 only), length and code block are at their places with their values |
| Tqe1Batch.ReadRecords | contrib/tqe1_reader.py:130-136 | succeeds with the one list of records whose bytes the buffer is; fails, with the error of the first record that does not parse, exactly when no list of records has these bytes; ends because every record advances the offset |
| Tqe1Batch.ReadWritten | contrib/tqe1_reader.py:130-136 | reading a concatenation of written records returns them |
| Tqe1Batch.SerializeAllInjective | contrib/tqe1_reader.py:130-136 | a batch file decomposes in one way only |
| Tqe1Batch.BatchPrefix | contrib/tqe1_reader.py:133-135 | a batch whose bytes begin another batch is the beginning of its list of records |
| Tqe1Batch.SerializeAllLength | contrib/tqe1_reader.py:133-135 | n records take at least 20 n bytes |
| BitPacking.SameBitStream | contrib/tqe1_reader.py:140-151 | indices (base 2^bits) and bytes (base 256) are two spellings of the same number: LSB-first for 2, 3 and 4 bits |
| BitPacking.UnpackInvertsPack | contrib/tqe1_reader.py:140-151 | unpacking a packed, zero-padded index list returns it, for any length |
| BitPacking.PackInvertsUnpack | contrib/tqe1_reader.py:142-150 | packing the unpacked indices of whole byte groups returns the bytes |
| BitPacking.PackKeepsValue | contrib/tqe1_reader.py:140-151 | the packed bytes hold the number the padded indices write |
| WalshHadamard.Fwht | contrib/tqe1_reader.py:154-165 | the in-place butterfly passes compute the Walsh matrix times the vector, entry i the sum of (-1)^popcount(i AND j) a[j], if and only if the length is a power of two; otherwise the reshape is refused |
| WalshHadamard.ButterflyDoubles | contrib/tqe1_reader.py:160-164 | one pass turns blocks transformed at length h into blocks transformed at length 2h |
| WalshHadamard.WalshBlocks | contrib/tqe1_reader.py:161-163 | the matrix of size 2h is built from four copies of the matrix of size h, one negated |
| WalshProperties.RowsOrthogonal | contrib/tqe1_reader.py:154-165 | the rows of the transform are orthogonal, each of squared length d |
| WalshProperties.SelfAdjoint | contrib/tqe1_reader.py:154-165 | the transform moves across an inner product |
| WalshProperties.Involution | contrib/tqe1_reader.py:154-165 | transforming twice multiplies every entry by d |
| Rotations.Unrotate | contrib/tqe1_reader.py:168-187 | the three branches, chosen by rotation byte and dimension; refused for Hadamard lengths that are no power of two |
| Rotations.UnrotateInvertsRotate | contrib/tqe1_reader.py:168-187 | un-rotating a rotated vector returns it, for Hadamard, orthonormal matrix, and sign flip with permutation |
| Rotations.RotateInvertsUnrotate | contrib/tqe1_reader.py:168-187 | rotating an un-rotated vector returns it, in all three families |
| Rotations.UnrotateKeepsInnerProducts | contrib/tqe1_reader.py:168-187 | un-rotation preserves every inner product, in all three families |
| Rotations.UnrotateScales | contrib/tqe1_reader.py:194-196 | scaling commutes with un-rotation, so the norm may be applied last |
| Permutations.ArgsortInverts | contrib/tqe1_reader.py:185-187 | the argsort of a permutation is its inverse, on both sides |
| Tqe1Decode.Decode | contrib/tqe1_reader.py:190-196 | the decoded vector rotates forward to norm times the selected scaled centroids, its squared length is norm^2 / dim times the sum of squared centroids, and for a positive norm its rotated coordinates are ordered as the indices are, complementary indices giving opposite coordinates; fails exactly when the block does not hold dim indices or a Hadamard length is refused |
| Tqe1Decode.CodebookIsOddAndIncreasing | contrib/tqe1_reader.py:49-72 | the centroids of each width are strictly increasing and symmetric about zero |
| Tqe1Decode.DecodedVector | contrib/tqe1_reader.py:192-196 | select, scale, un-rotate, multiply by the norm: the result rotates back to the centroids it came from and has their length |
| Tqe1File.WrittenIndicesAreRead | contrib/tqe1_reader.py:90-127 | a written record of packed indices is read back, with exactly its indices, wherever it stands in a buffer |
| Tqe1File.DecodeWritten | contrib/tqe1_reader.py:199-203 | from bytes to vectors: decoding a batch file gives, record for record, the vector that rotates to norm times the scaled centroids of the indices packed into it, ordered as these indices are |
| Tqe1File.EncodedIndicesAreUnique | contrib/tqe1_reader.py:140-151 | the code block of a record determines its indices |
| ScalarQuantizer.Quantize | pgext/src/codebook.rs:33-106 | decision trees and scan find the entry of the table nearest to the value, for every value and width |
| ScalarQuantizer.Quantize4 | pgext/src/codebook.rs:77-85 | the scan over midpoints stops at the nearest of the sixteen entries |
| ScalarQuantizer.TreesFindNearest | pgext/src/codebook.rs:26-74 | the boundaries of both trees lie between the entries so that every value gets the nearest one |
| ScalarQuantizer.TablesAgreeExactlyWhen | pgext/src/codebook.rs:7-23 | the tables of the extension and of the reader have the same entry at an index exactly for 2 and 3 bits, and for 4 bits at the first five indices and the last |
| ScalarQuantizer.ReaderFindsNearest | contrib/tqe1_reader.py:49-52 | the reader decodes a 2-bit or 3-bit index of the extension to the centroid nearest to the quantised value |
| ScalarQuantizer.FourBitCodeMisread | pgext/src/codebook.rs:18-23 | the reader decodes the 4-bit index of 0.8 to 0.524, though its table has 0.8 |
| ExtensionPacking.Pack2 | pgext/src/compress.rs:191-198 | or-ing each 2-bit index into its byte of a zeroed array writes the packed block, the bytes of the number the indices write |
| ExtensionPacking.Pack3 | pgext/src/compress.rs:156-172 | gathering eight 3-bit indices in a word and storing its three bytes writes the packed block |
| ExtensionPacking.Pack4 | pgext/src/compress.rs:208-219 | storing the even 4-bit index of a byte and or-ing the odd one above it writes the packed block |
| ExtensionPacking.OrIsSum | pgext/src/compress.rs:195 | or-ing bits above all that are set is adding them, which is why the number of the indices grows by one digit |
| ExtensionPacking.OrIsBitwise | pgext/src/compress.rs:195 | the or of the model sets exactly the bits set in one of its operands |
| ExtensionPacking.PackIndices | pgext/src/compress.rs:233-240 | the reader unpacks exactly the indices the extension packed, for any number of them |
| ExtensionPacking.QuantizeAndPack | pgext/src/compress.rs:283-290 | from coordinates to bytes: the reader finds in the codes, for every value, the index of the nearest entry, for 2 and 3 bits of its own table too |
| CircuitBreaker.Breaker.Observe | benchmarks/nrp_breaker.py:46-58 | returns the active jobs that vanished and updates window, history and last deletion |
| CircuitBreaker.Breaker.Step | benchmarks/nrp_breaker.py:60-83 | one transition of the CLOSED, OPEN, HALF_OPEN machine, read off the listing itself: a probe whose job is last listed as succeeded, or active PROBE_OK seconds, closes it with its base quiet; one last listed as failed is dropped; a deletion reopens it and doubles the quiet period up to its cap |
| CircuitBreaker.LookupIsLast | benchmarks/nrp_breaker.py:149 | a name is looked up with a status if and only if some job bears both and no later job bears the name; it is missing if and only if no job bears it |
| CircuitBreaker.Breaker.constructor | benchmarks/nrp_breaker.py:37-44 | starts OPEN with the start time as last deletion |
| SubmissionLoop.Loop.constructor | benchmarks/nrp_breaker.py:124-128 | the loop starts with every queued name seen and nothing in flight |
| SubmissionLoop.Loop.RereadQueue | benchmarks/nrp_breaker.py:132-141 | unseen jobs of the file are appended until an entry without a name, readable or not |
| SubmissionLoop.Loop.Settle | benchmarks/nrp_breaker.py:157-174 | the jobs in flight are sorted by what the listing says of each, in order: last listed as succeeded are done, last listed as failed have failed, listed as neither stay, vanished or unlisted ones return to the front of the queue or have failed when their tries are used up |
| SubmissionLoop.SettlingSorts | benchmarks/nrp_breaker.py:157-174 | settling one by one is that sorting, with any jobs in flight and any listing |
| SubmissionLoop.Loop.Submit | benchmarks/nrp_breaker.py:175-190 | at most one job leaves the queue, counts a try, and becomes the probe in HALF_OPEN |
| SubmissionLoop.Loop.Tick | benchmarks/nrp_breaker.py:130-211 | one body of the loop, with skipped ticks; drained exactly when nothing is queued or in flight after an accepted listing |
| BreakerSafety.SubmissionsAreSafe | benchmarks/nrp_breaker.py:46-86 | whole runs, any base quiet beyond WINDOW, any listings and submission results, clock not going back: no job is ever submitted while THRESHOLD or more deletions lie in the last WINDOW seconds |
| BreakerSafety.SafeExactlyWhen | benchmarks/nrp_breaker.py:37-86 | all runs of all queues are safe in this sense if and only if the base quiet is longer than WINDOW |
| BreakerSafety.RunKeepsInvariant | benchmarks/nrp_breaker.py:46-86 | every run, whatever the base quiet, keeps: HALF_OPEN only after quiet seconds without deletion, the pruned window is the filtered history, quiet is base times 2^reopenings capped, a probe only in HALF_OPEN |
| BreakerSafety.RunIsGuarded | benchmarks/nrp_breaker.py:46-86 | with a base beyond WINDOW every run also keeps CLOSED at fewer than THRESHOLD deletions in the window and every submission safe |
| BreakerSafety.TickKeepsInvariant | benchmarks/nrp_breaker.py:142-190 | one tick keeps the invariant, skipped or not |
| BreakerSafety.StepKeepsInvariant | benchmarks/nrp_breaker.py:60-83 | the transition alone keeps the breaker invariant |
| BreakerSafety.PruningIsFiltering | benchmarks/nrp_breaker.py:54-57 | pruning the window at every observation equals filtering the whole history once |
| BreakerSafety.RecentIsExact | benchmarks/nrp_breaker.py:57 | the window keeps exactly the deletions at most WINDOW seconds old, each as often as it happened |
| BreakerSafety.DeletionsAreVanishedJobs | benchmarks/nrp_breaker.py:142-150 | the recorded deletions are exactly the active jobs that vanish between consecutive accepted listings, each once; skipped ticks lose and invent none |
| BreakerSafety.GoneIsExact | benchmarks/nrp_breaker.py:48-52 | an observation reports each vanished active uid once and nothing else |
| ProbeProgress.ProbeResolvedExactlyWhen | benchmarks/nrp_breaker.py:132-190 | one tick of a loop waiting on a probe leaves it waiting with nothing logged if and only if the tick is not an accepted one in which an active job vanished or the last job listed under the name of the probe succeeded, failed, or is active PROBE_OK seconds |
| ProbeProgress.ProbeClosesExactlyWhen | benchmarks/nrp_breaker.py:69-81 | any tick: a waiting breaker closes, back at its base quiet, if and only if the listing is accepted, no active job vanished, and the last job listed under the name of the probe succeeded or is active PROBE_OK seconds |
| ProbeProgress.BlocksExactlyWhen | benchmarks/nrp_breaker.py:69-86 | whole runs: every prefix of a run keeps waiting with nothing submitted if and only if no tick of the run is such a tick |
| ProbeProgress.DeletedProbeReopensExactlyWhen | benchmarks/nrp_breaker.py:69-73 | any tick: a waiting breaker reopens if and only if the listing shows some job and lacks an active one of the last accepted listing; a probe that is not listed is waited on otherwise |
| ProbeProgress.LiveProbeCloses | benchmarks/nrp_breaker.py:74-79 | progress: while accepted listings show the probe active and nothing vanishes the loop waits, whatever is skipped, and it is CLOSED at the first accepted tick PROBE_OK seconds after the submission |
| ProbeProgress.LostProbeIsRequeued | benchmarks/nrp_breaker.py:157-163 | a probe that is gone before any listing showed it goes back to the queue, and the breaker keeps waiting for it |
| ProbeProgress.LostProbeIsStuck | benchmarks/nrp_breaker.py:69-86 | such a state is reached with every base quiet above 0, and from it nothing is submitted for exactly as long as no tick resolves the probe, though its job waits in the queue |
| EmptiedNamespace.AllSkippedExactlyWhen | benchmarks/nrp_breaker.py:142-147 | after a listing with an active job every tick of a run is skipped if and only if the run lists no job; that listing stays the one to compare with, however old |
| EmptiedNamespace.EmptiedNamespaceStalls | benchmarks/nrp_breaker.py:142-147 | in such a run only the queue file is read: whatever the state, no transition, no deletion recorded, nothing requeued, nothing submitted |
| EmptiedNamespace.VanishedRecordedLate | benchmarks/nrp_breaker.py:142-150 | the jobs that vanished are recorded by the next listing that shows a job, with its time |
| EmptiedNamespace.LoneProbeIsNeverMissed | benchmarks/nrp_breaker.py:69-86 | such a state is reached, with every base quiet above 0, by a probe that is the only job and is listed once |
| LoopMoves.TransitionsExactlyWhen | benchmarks/nrp_breaker.py:63-82 | the transitions of any run with any base quiet, read off the whole history and the listing: CLOSED opens exactly at THRESHOLD deletions in the window, OPEN lets a probe out exactly when the last deletion is quiet seconds old, HALF_OPEN opens exactly on a deletion, doubling its quiet period, closes exactly on a probe that lived and drops one that failed; a submission changes at most the probe |
| LoopMoves.LastDeletionIsLast | benchmarks/nrp_breaker.py:54-56 | the time kept is that of the last deletion ever recorded, or of the start |
| LoopMoves.TickSettles | benchmarks/nrp_breaker.py:132-174 | queue, seen names, jobs in flight, done and failed of an accepted tick before it submits: the sorted jobs, the requeued ones in front, what the queue file adds at the end |
| LoopMoves.JobEndsAsListed | benchmarks/nrp_breaker.py:157-174 | a job in flight that is last listed as succeeded ends the tick done; as failed only, failed; as neither, in flight; a vanished or unlisted one is queued again, or has failed when its tries are used up |
| LoopMoves.SubmitsExactlyWhen | benchmarks/nrp_breaker.py:143-183 | a tick submits the head of the queue once exactly when the listing is accepted, the breaker is CLOSED or is HALF_OPEN without a probe, and it is no dry run; otherwise it only reads, observes and settles |
| LoopMoves.SubmittedJobLands | benchmarks/nrp_breaker.py:175-190 | a submitted job leaves the queue with one try more and is logged; it has failed when its command fails and is in flight otherwise; from HALF_OPEN it becomes the probe and bars every further submission; nothing else changes |
| LoopMoves.PutKeepsPlaces | benchmarks/nrp_breaker.py:186 | a job whose name is in flight takes the place of the first one so named, any other joins the end |
| QueueReading.ReadingQueuesUnseen | benchmarks/nrp_breaker.py:132-141 | a tick whose queue file changed appends, in file order and untried, the first mention of every unseen name before the first malformed entry, marks all names read as seen, and changes nothing else; any other file adds nothing |
| QueueConservation.EveryJobInOnePlace | benchmarks/nrp_breaker.py:124-190 | after every run each name ever seen is in exactly one of queue, inflight, done and failed, exactly once, if and only if the initial queue repeats no name |
| QueueConservation.TickStaysPartitioned | benchmarks/nrp_breaker.py:130-190 | one tick moves names between the four places without losing or copying one |
| QueueConservation.RetriesAreBounded | benchmarks/nrp_breaker.py:161-166 | in any run a job is submitted at most MAX_TRIES minus the tries it starts with, or once if that is less: never more than MAX_TRIES times, unless the initial queue gives it a negative count |
| QueueConservation.TotalSubmissionsBounded | benchmarks/nrp_breaker.py:175-190 | a run makes at most MAX_TRIES submissions per job seen |
| LruCache.SimulateLruCache | benchmarks/benchmark_cache.py:34-68 | hits, misses and rate are those of the stack-distance rule and the final cache is the most recently used ids; a capacity below one fails on the first access |
| LruCache.StatsAddUp | benchmarks/benchmark_cache.py:62-68 | hits and misses are all accesses, and the hit rate times the accesses is the hits; 0 without accesses |
| LruCache.InLastNWhenRecent | benchmarks/benchmark_cache.py:51-60 | a seen id is cached if and only if fewer than c distinct ids were accessed since |
| LruCache.AccessIsLru | benchmarks/benchmark_cache.py:53-60 | one access of the ordered dictionary keeps it the last c ids in recency order |
| LruCache.AccessCounts | benchmarks/benchmark_cache.py:53-57 | one access hits exactly by the stack-distance rule |
| LruCache.SmallerCacheIncluded | benchmarks/benchmark_cache.py:34-68 | the contents of a smaller cache are the most recent entries of a larger one on the same stream |
| LruCache.LargerCacheHitsMore | benchmarks/benchmark_cache.py:34-68 | a larger cache hits at least as often |
| LruCache.SizesAreLeast | benchmarks/benchmark_cache.py:21-31 | the codes of an embedding take the least number of bytes that hold them, a byte per code at other widths than 2, 3 and 4; the float32 vector takes 32 bits per dimension |
| LruCache.CapacityIsLargest | benchmarks/benchmark_cache.py:86-93 | the capacity is the largest number of entries that fit in the memory |
| LruCache.BenchmarkCacheHitRate | benchmarks/benchmark_cache.py:71-118 | fails if and only if the dimension is 0 or a capacity is 0 and the stream is not empty; otherwise both strategies report the stack-distance statistics of their capacities, and from dimension 2 on the improvement is never negative |
| LruCache.NeverLosesExactlyFromDimTwo | benchmarks/benchmark_cache.py:21-31 | over all budgets and streams the compressed cache never hits less if and only if dim >= 2 |
| TwoMeans.TwoMeansTIsOptimal | benchmarks/strata_role_diff2.py:43-57 | T is one minus the least within-cluster share over all splits into two nonempty parts, contiguous or not, and lies in [0, 1]; 0 below four values or without variance |
| TwoMeans.BestSplitIsLeast | benchmarks/strata_role_diff2.py:51-57 | the best prefix-sum split is attained and no split of the values beats it |
| TwoMeans.SplitCostIsWithin | benchmarks/strata_role_diff2.py:51-56 | the prefix-sum expression is the within-cluster sum of squares of the two halves |
| TwoMeans.SortedSplitIsBetter | benchmarks/strata_role_diff2.py:44-46 | exchanging any split for the sorted split of the same sizes does not cost more |
| TwoMeans.SmallestSum | benchmarks/strata_role_diff2.py:46-54 | the first k sorted values have the least sum of all k-element parts |
| TwoMeans.MeanIsBest | benchmarks/strata_role_diff2.py:48 | the mean minimises the sum of squared distances, and it is the only minimiser |
| TwoMeansInvariance.MovedKeepsT | benchmarks/strata_role_diff2.py:43-57 | T of c x + d is T of x, for every c but 0 and every d |
| TwoMeansInvariance.BothCentre | benchmarks/strata_role_diff2.py:153-158 | the observed form subtracts the mean of all replicates, the null form the mean of the other replicates |
| TwoMeansInvariance.LeaveOneOutIsCentring | benchmarks/strata_role_diff2.py:153-158 | leaving a replicate out of its own mean gives the statistic that centring on the mean of all replicates gives |
| Gini.GiniIsPairwise | benchmarks/strata_role_diff.py:55-60 | the sorted formula is the sum of abs(x_i - x_j) over all pairs divided by 2 n sum x, and 0 when the sum is not positive |
| Gini.GiniBounds | benchmarks/strata_role_diff.py:55-60 | for nonnegative values, at least one, it lies in [0, 1 - 1/n] |
| Gini.PlacementGiniAgrees | benchmarks/bench_placement.py:166-171 | the differently written occupancy Gini is the same number |
| TransitFlow.Bincount | benchmarks/strata_role_diff.py:46-50 | scatter-add: repeated positions accumulate, cell v holds the sum of the weights sent to v |
| TransitFlow.TallyTotal | benchmarks/strata_role_diff2.py:121-127 | what is scattered adds up to what was sent |
| TransitFlow.TransitStats | benchmarks/strata_role_diff.py:43-52 | in-degrees and transit scores of all nodes |
| TransitFlow.TauIsAShare | benchmarks/strata_role_diff2.py:126-128 | a transit score lies in [0, 1], and times the in-degree it is the number of edges from other areas, isolated nodes included |
| TransitFlow.TransitCountsCrossEdges | benchmarks/strata_role_diff2.py:121-128 | in-degree times transit, summed over nodes, is the number of cross-area edges |
| AreaMeans.AreaMeanIsAShare | benchmarks/strata_role_diff2.py:131-141 | an area mean lies in [0, 1] and times the area size is the sum of its scores, empty areas included |
| AreaMeans.MeansPoolBack | benchmarks/strata_role_diff2.py:129-141 | area means weighted by size add up to the scores of all nodes in scored areas |
| AreaMeans.RelabellingKeepsSizes | benchmarks/strata_role_diff2.py:148-149 | a replicate permutes labels, so every area keeps its size |
| FlowMatrix.HistogramIsFlow | benchmarks/strata_role_diff2.py:133-138 | cell a * m + b of the flat histogram counts the edges from area a to area b and no others |
| FlowMatrix.FlowHistogram | benchmarks/strata_role_diff.py:63-74 | the histogram over the edges with both ends scored |
| FlowMatrix.FlowMass | benchmarks/strata_role_diff2.py:133-138 | any part of the flow matrix weighs as much as the edges it stands for |
| FlowMatrix.FlowIsADistribution | benchmarks/strata_role_diff2.py:139 | the normalised flow sums to 1 when one edge has both ends scored and is 0 otherwise |
| FlowMatrix.TransitIsFlow | benchmarks/strata_role_diff2.py:124-139 | in-degree times transit equals the off-diagonal flow plus the cross edges that touch an abstaining area |
| FlowMatrix.TransitAgreesExactlyWhen | benchmarks/strata_role_diff2.py:129-139 | transit and off-diagonal flow are equal if and only if every cross edge joins two scored areas |
| FlowMatrix.TransitDisagrees | benchmarks/strata_role_diff2.py:129-139 | one neighbour per node and an edge from an area too small to be scored make them differ |
| FlowMatrix.AsymmetryBounds | benchmarks/strata_role_diff2.py:140 | the squared asymmetry lies between 0 and twice the squared norm; 0 exactly for a symmetric flow, full exactly when no pair of areas flows both ways |
| FlowMatrix.FlowScoreBounds | benchmarks/strata_role_diff2.py:133-140 | the normalised flow is nonnegative, so the score the code reports for it is at most the square root of 2 and 0 exactly for a symmetric flow |
| FlowMatrix.ScoreBounds | benchmarks/strata_role_diff.py:188-191 | the reported score is at most the square root of 2, and 0 exactly for a symmetric flow, clamp included |
| KernelIdentity.NumeratorIsInnerProduct | benchmarks/benchmark_m3_integration.py:82-109 | query bias plus norm times the code-space sum is the inner product with the reconstruction |
| KernelIdentity.NormExpands | benchmarks/benchmark_m3_integration.py:99-105 | the expanded squared norm is the squared norm of the reconstruction |
| KernelIdentity.KernelScoreIsCosine | benchmarks/benchmark_m3_integration.py:82-109 | kernel and reference cosine are equal if and only if the squared norm is not clamped or the inner product is 0 |
| KernelIdentity.ClampedScoresDiffer | benchmarks/benchmark_m3_integration.py:99-109 | a model with eight centroids, a vector and a query for which they differ |
| KernelIdentity.RankingsAgree | benchmarks/benchmark_m3_integration.py:4-13 | over a corpus whose squared norms are not clamped the top-k sets of the kernel are exactly those of the reference, for every k |
| ChannelCodebook.Kmeans1d | benchmarks/tq_paper_lb_shard.py:147-158 | the given number of Lloyd iterations from the quantiles of the values, ending with a smaller error than the quantiles or at the quantiles themselves |
| ChannelCodebook.LloydNeverWorse | benchmarks/tq_paper_lb_shard.py:151-157 | an iteration never increases the total squared error, empty clusters keeping their centroid |
| ChannelCodebook.ErrorFallsUnlessFixed | benchmarks/tq_paper_lb_shard.py:151-157 | an iteration keeps the error if and only if it keeps the codebook; otherwise the error falls |
| ChannelCodebook.FixedStays | benchmarks/tq_paper_lb_shard.py:151-157 | a codebook that an iteration keeps is kept by all later ones |
| ChannelCodebook.MeansAreBest | benchmarks/tq_paper_lb_shard.py:152-156 | with the assignment kept, no codebook has a smaller error than the means |
| QuantileStart.QuantilesAscend | benchmarks/tq_paper_lb_shard.py:149-150 | the interpolated quantiles an iteration starts from ascend |
| QuantileStart.QuantilesInterpolate | benchmarks/tq_paper_lb_shard.py:149-150 | linear interpolation: a quantile at position q + r / (k - 1) of the sorted values, times k - 1, is k - 1 - r times the q-th plus r times the next; at a whole position it is the q-th value |
| CodebookOrder.LloydKeepsOrder | benchmarks/tq_paper_lb_shard.py:151-157 | without repeated centroids an iteration keeps the codebook strictly increasing |
| CodebookOrder.OrderKeptExactlyWhen | benchmarks/tq_paper_lb_shard.py:151-157 | an iteration keeps a sorted codebook sorted if and only if no centroid that equals the next one has members with a mean above it |
| CodebookOrder.QuantileStartBreaksOrder | benchmarks/tq_paper_lb_shard.py:149-157 | from the four quantiles of seven values the first iteration ends unsorted, which is why the sort follows |
| ChannelCodebook.AssignIsNearest | benchmarks/tq_paper_lb_shard.py:176-181 | comparing the two neighbours of the insertion point finds the nearest entry, the smaller one on a tie |
| ChannelCodebook.QuantChannel | benchmarks/tq_paper_lb_shard.py:161-182 | every value of the channel becomes the nearest entry, the smaller one on a tie, of the quantile or k-means codebook fitted to the sample |
| ChannelCodebook.SampleIsStrided | benchmarks/tq_paper_lb_shard.py:170 | up to 1536 tokens the sample is the channel, beyond that 1024 evenly spaced tokens from the first |
| ChannelCodebook.SortingKeepsError | benchmarks/tq_paper_lb_shard.py:176-181 | coding by the sorted codebook has the error of nearest-centroid coding |
| ChannelCodebook.KmeansBeatsQuantiles | benchmarks/tq_paper_lb_shard.py:170-176 | on the tokens both are fitted to, the k-means codebook is never worse than the quantile one it starts from |
| GroupQuantizer.PaddingIsInvisible | benchmarks/tq_paper_lb_shard.py:92-110 | repeating the last token to fill the last group does not change any reconstructed token |
| GroupQuantizer.BlockIsNearest | benchmarks/tq_paper_lb_shard.py:100-110 | every token becomes one of the 2^bits levels of its own group, none is nearer, the even one of two equally near, and it is off by at most half a step |
| GroupQuantizer.LevelsSpanGroup | benchmarks/tq_paper_lb_shard.py:104-108 | the levels are evenly spaced from the minimum of the group to its maximum, or over 1e-8 if these are closer |
| GroupQuantizer.GroupIsStretch | benchmarks/tq_paper_lb_shard.py:92-104 | the group of a token is the stretch of g tokens it lies in, the last one as long as the channel allows |
| GroupQuantizer.BlockIdempotent | benchmarks/tq_paper_lb_shard.py:100-110 | quantising a quantised channel changes nothing |
| GroupQuantizer.LevelError | benchmarks/tq_paper_lb_shard.py:107-109 | the clamp never acts on a value of its own group, rounding is off by at most half a step, and by half a step only towards an even level |
| SettledBlocks.KeyChannelIsCoded | benchmarks/tq_paper_lb_shard.py:185-204 | exact are the sink tokens and, for a positive share, every token that fewer than k exceed in magnitude, k the rounded share of the tokens but at least one; all others become the nearest level of their own group |
| SettledBlocks.KeptExactlyWhen | benchmarks/tq_paper_lb_shard.py:196-204 | the mask keeps exactly these tokens |
| SettledBlocks.OutlierCountIsRounded | benchmarks/tq_paper_lb_shard.py:200 | k is the share of the tokens rounded to the nearest number, halves to the even one, and at least one |
| SettledBlocks.ThresholdIsKthLargest | benchmarks/tq_paper_lb_shard.py:199-203 | the outlier threshold is the k-th largest magnitude: k tokens reach it, fewer exceed it |
| SettledBlocks.ValueBlockIsNearest | benchmarks/tq_paper_lb_shard.py:207-212 | every value coordinate becomes the nearest of the levels its own token spans |
| SettledBlocks.ValueBlockIdempotent | benchmarks/tq_paper_lb_shard.py:207-212 | quantising settled values again changes nothing |
| KvCache.Cache.Update | benchmarks/tq_paper_lb_shard.py:218-237 | after any updates of any layers, every layer holds its first chunk settled and all later chunks as they came |
| KvCache.SettledOnce | benchmarks/tq_paper_lb_shard.py:222-236 | the quantised region persists: later updates only append their raw tokens |
| KvCache.StoredKeysAreCoded | benchmarks/tq_paper_lb_shard.py:227-236 | after any updates every stored key is the raw one unless it settled with the first chunk; then it is exact for sinks and for tokens that too few exceed in magnitude, and the nearest level of its group otherwise |
| KvCache.StoredValuesAreCoded | benchmarks/tq_paper_lb_shard.py:227-236 | the same for values, coded within their own token |
| PrunedScan.Uint8LutIsValid | benchmarks/prune_sim.py:29-35 | the scale covers every row of the table, so no entry is clipped |
| PrunedScan.LutError | benchmarks/prune_sim.py:29-35 | the 8-bit score of m dimensions is within m half-steps of the sum of the m table entries |
| PrunedScan.ScoreError | benchmarks/prune_sim.py:57-59 | the final score is within norm * vrnorm * m half-steps of the score by the table before rounding |
| PrunedScan.SeparatedTopKSurvives | benchmarks/prune_sim.py:57-61 | k vectors whose exact scores clear all others by both errors are the one top-k by the real table and by the 8-bit one |
| PrunedScan.ByteError | benchmarks/prune_sim.py:34 | rounding an entry to a byte is off by at most half a step, halves upwards |
| PrunedScan.Partial | benchmarks/prune_sim.py:57-59 | the accumulator stays between 0 and 255 per dimension |
| PrunedScan.BoundTightens | benchmarks/prune_sim.py:66-70 | later checkpoints tighten the exact bound, down to the accumulator itself |
| PrunedScan.PrunedExactlyWhen | benchmarks/prune_sim.py:67-83 | a vector is abandoned at a checkpoint, and not kept, if and only if no completion of its first m codes reaches the threshold: the bound is exact |
| PrunedScan.PruningIsAdmissible | benchmarks/prune_sim.py:82-83 | a vector scoring at least the threshold is never abandoned; an abandoned one stays abandoned at later checkpoints |
| PrunedScan.PruningKeepsTopK | benchmarks/prune_sim.py:60-90 | no top-k member is pruned at any checkpoint and the k best of the kept have the scores of the k best of all |
| PrunedScan.BlockPrunedExactlyWhen | benchmarks/prune_sim.py:84 | a block is skipped if and only if none of its 32 vectors can reach the threshold, so no full block with a top-k member is |
| PrunedKernel.TableAddsUp | benchmarks/prune_sim.py:29-31 | the table entries that the codes pick add up to the inner product of the query with the centroids the codes select |
| PrunedKernel.ScaleIsWidestSpread | benchmarks/prune_sim.py:31-33 | 255 steps are the widest of the spreads abs(q_j) (max - min centroid), or 1e-20 if that is more |
| PrunedKernel.ScanIsNearKernel | benchmarks/prune_sim.py:54-59 | the 8-bit score of a stored vector is within norm * vrnorm * dimensions * half a step of the kernel score (qbias + norm <q, centroids>) vrnorm |
| PrunedKernel.ScanFindsCosineTopK | benchmarks/prune_sim.py:54-90 | from scan to cosine: over a corpus whose squared norms are not clamped, k vectors clear of all others by both errors are the one top-k by the cosine with the reconstruction, by the 8-bit scores, and among the vectors kept at any checkpoint |
| TopK.TopKByScores | benchmarks/bench_index_scale.py:71-73 | a set of k rows is a top-k if and only if for every value it has as many scores at or above it as k allows |
| TopK.TopKScoresUnique | benchmarks/bench_index_scale.py:71-73 | any two choices of the k best have the same scores, with multiplicity |
| BlockedTopK.ExactTopKBlocked | benchmarks/bench_index_scale.py:58-75 | after any sequence of blocks the answer is min(k, rows) distinct global ids that no left-out row outscores; it fails if and only if the first block is empty, or any block when k is 0 |
| BlockedTopK.CandidatesSuffice | benchmarks/bench_index_scale.py:69-73 | selecting from the k best so far and the new block keeps the k best of all rows, each id with its own score |
| BlockedTopK.BlockingDoesNotMatter | benchmarks/bench_index_scale.py:65-75 | two ways of cutting the corpus give answers with the same scores |
| BlockedTopK.GroundTruth | benchmarks/bench_index_scale.py:179-185 | shards cut into sub-blocks of a million rows, none of them empty, give a top-k of the whole corpus |
| BlockedTopK.ArgPartition | benchmarks/bench_index_scale.py:71 | the k largest positions |
| ShardMap.ShardOwnsRange | benchmarks/bench_bigann.py:187-188 | a cell maps to shard i if and only if it lies between edge i and edge i + 1 |
| ShardMap.ShardMonotone | benchmarks/bench_bigann.py:187-188 | the cell-to-shard map is monotone |
| ShardMap.CutsAgreeExactlyWhen | benchmarks/bench_placement.py:186-191 | the rounded edges of the streaming build and the unrounded ones of the placement give the same shards if and only if the number of cells is a multiple of the number of shards |
| StreamingPartition.AssignCells | benchmarks/bench_bigann.py:168-172 | the chunked fill of the cell table is the row-by-row map |
| StreamingPartition.Partition | benchmarks/bench_bigann.py:196-204 | for any chunk size shard i gets exactly the ascending rows whose cell maps to i, and its spill file holds those rows in that order |
| StreamingPartition.SpillChunk | benchmarks/bench_bigann.py:197-204 | one chunk appends to every shard that occurs in it |
| StreamingPartition.RowsConcat | benchmarks/bench_bigann.py:204 | filtering chunk by chunk, row numbers shifted by the chunk start, is filtering the whole |
| StreamingPartition.MaskPicksRows | benchmarks/bench_bigann.py:202-204 | the boolean mask keeps the rows that flatnonzero numbers, in that order |
| StreamingPartition.RowsIncrease | benchmarks/bench_bigann.py:204 | the ids of a shard are ascending |
| StreamingPartition.RowLandsWhereItsCellDoes | benchmarks/bench_bigann.py:200-204 | a row is in shard i if and only if its cell is in the range of shard i, so no cell is split |
| StreamingPartition.ShardsCoverCorpus | benchmarks/bench_bigann.py:216-226 | the shard sizes add up to the corpus |
| CellPlacement.PlacementCovers | benchmarks/bench_placement.py:185-191 | the cell-aligned blocks hand out every row exactly once |
| CellPlacement.PlacementByCell | benchmarks/bench_placement.py:185-191 | a row is in block i if and only if its cell lies between the unrounded edges i and i + 1 |
| CellPlacement.RoundRobinCovers | benchmarks/bench_placement.py:179-182 | the row ranges hold all rows once, in order |
| CellPlacement.RoundRobinSizes | benchmarks/bench_placement.py:175-182 | all ranges but the last are equally long, the last less than one row per shard longer |
| CellPlacement.BuildsAgree | benchmarks/bench_placement.py:185-191 | where the cells divide evenly, both builds fill every shard with the same rows |
| CellPlacement.BuildsDisagree | benchmarks/bench_placement.py:185-191 | where they do not, one row in the cell across the first edge goes to different shards |

## Left out

- Tqe1Decode.Decode: gives no vector for a code block with fewer than `dim` indices; numpy would fail later or broadcast, and dimension 0 (a division by zero) is excluded.
- Tqe1File.DecodeWritten: the vectors stay a list; stacking them into one array, which needs equal dimensions, is not modelled.
- Rotations.Unrotate: numpy's generator and its QR factorisation are not modelled; signs, permutation and an orthonormal matrix are inputs, and so is the argsort.
- BreakerSafety.SubmissionsAreSafe: assumes a clock that does not go back; wall-clock steps backwards are not modelled.
- SubmissionLoop.Loop.Tick: kubectl, the shell, the state file and the log's wording are not modelled; listing, submission result and queue file contents are arbitrary inputs, and job names in one listing are looked up last-wins as the dict does.
- LruCache.BenchmarkCacheHitRate: the Zipf stream is an arbitrary stream, and the report keeps only capacities, rates and improvement.
- TwoMeansInvariance.LeaveOneOutIsCentring: needs two replicates, since the code divides by R - 1.
- KernelIdentity.KernelScoreIsCosine: queries are not required to be normalised; the compiled kernel and faiss are not part of this model, only the formula they are given.
- SettledBlocks.KeyChannelIsCoded: the NF4 codebooks are not modelled, and the quantile and k-means codebooks are modelled in ChannelCodebook but not as a mode of the cache.
- KvCache.Cache.Update: one batch entry and head; the pre-rotation hook, the NOQUANT switch and the cast back to half precision are not modelled.
- PrunedScan.PruningIsAdmissible: covers the exact bound; the statistical z and ADSampling bounds promise nothing for every input.
- BlockedTopK.ExactTopKBlocked: one query at a time, with the similarity of a row as a parameter; argpartition is modelled by its contract.
- StreamingPartition.Partition: the edges are exact quotients where linspace computes them in floating point, and an empty corpus, which has no shards, is excluded.
- CellPlacement.PlacementByCell: the stable argsort enters by its contract.
- TransitFlow.TransitStats: the edge list is arbitrary rather than exactly k edges per row.
- FlowMatrix.ScoreBounds: norms enter as nonnegative roots of the squared sums.
- IEEE rounding, overflow and NaN everywhere.
- The compressor library itself (index, shards on disk, certificates), model loading, GPU, Postgres, HTTP and timing code.
- Dip test, silhouette, bootstrap, mutual information and permutation p-values: statistics without a promise for every input.
- ExtensionPacking.QuantizeAndPack: takes the rotated, scaled coordinates; the Gram-Schmidt rotation, the norm and the unpackers of the extension are not modelled.
- Schedules and byte estimates are not modelled.
