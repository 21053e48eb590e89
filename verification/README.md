# Hardware simulators: verified models

The repository is a set of hardware and data-system simulators written in C. This project models their
hardest cores in Dafny and proves what each core is for. One module models one source file (or one part of
it); code that updates arrays and structures in place is modelled by classes and methods over arrays, each
tied by its contract to a specification function or predicate, and the theorems are lemmas about those.

| module | models | main results |
|---|---|---|
| `PerfModel` | the least-squares latency predictor | elimination with pivoting solves the normal equations, the coefficients are the unique minimiser, R squared is the explained share of the variance, and refusal means near collinearity |
| `AttentionAccel` | softmax, single-head attention, tiled (flash) attention | the two routines leave equal outputs for every block shape, and exactly when they do not |
| `CacheBench` | the LRU cache simulator and the stack-distance profiler | Mattson's theorem: one histogram predicts the misses of every capacity, from trace to rate |
| `MemController` | the FR-FCFS memory controller | exact cost of draining a queue, optimality among all service orders, per-page order |
| `DramController` | the cycle-stepped DRAM controller | real-time service bounds under refresh for FCFS and for the ranking policies, timing safety and exactly when refreshes break it, in-place ranking on a ring buffer, what every counter counts |
| `Predictor` | the perceptron branch predictor | a mistake bound over runs of any length, convergence, exactly when training stops |
| `VirtualMemory` | frame allocator, page faults, translation | one-to-one mapping over every run, FIFO eviction, when physical addresses are distinct |
| `Coherence` | the MESI controller | single owner and up-to-date copies over every run with any number of caches; exactly which copies are current; the exclusive state and its silent write |
| `Mmu` | the TLB and page walk | TLB and page walk agree over every disciplined run, exactly which page-table changes need a flush, replacement order, working sets that fit |
| `Winograd` | the F(2,3) convolution | the transformed form equals the direct correlation, which outputs are written, when one plane may stand for all |
| `Mma`, `TensorCores`, `Tiling` | the two tiled matrix multiplies | exact products for all sizes, ragged edges included |
| `Quantization` | affine quantisation | the half-step error bound and the exact condition for it |
| `Interconnect` | mesh and ring routing | shortest routes and exactly which are, no cyclic channel dependency, when every route fits its buffer |
| `WorkloadGen` | the Gini coefficient of key popularity | equals the relative mean difference, range, equality case |
| `ResultAnalyze` | summaries, their merge, analysis of variance | merging equals summarising the whole, decomposition of squares |

`Vectors`, `Sums`, `Sorting`, `Arithmetic` and `Collections` hold the shared sums, matrices, sort and number facts.

## Conventions

Floating-point numbers are `real`, so rounding is not modelled. Counters and timestamps are unbounded; where
the width of a machine integer decides the outcome (the perceptron's 8-bit weights, 32-bit physical addresses,
the 32-bit bitmap words) it is written out. `exp`, the attention scale, the precision rounding of the tensor
core and `rand()` are parameters. Flat row-major buffers are two- or three-dimensional arrays. A null pointer
argument, an allocation failure and printing are not modelled; an optional input (the addend of a matrix
product, the data of a write) is an `Option` or a nullable array.

## Where the code and its documentation differ

The model follows the code.

- Tiled attention divides by the row sum only when it exceeds 1e-15. `AttentionsAgreeIff` says exactly when its
  output is that of plain attention; one score of at least -1e30 for each query is enough (`AttentionsAgree`), and
  `FlashDiffers` gives rows that differ.
- A stack profile files first accesses under distance `unique_count`, so the predicted miss count is exact
  precisely for capacities up to the number of distinct addresses (`PredictionExact`). It is built from addresses
  but read in lines: for a cache of lines it is an upper bound, exact without spatial hits
  (`PredictionBoundsLines`).
- `vm_free_frame` clears a bit without touching the FIFO or the page table. The tables stay consistent exactly
  when the frame was not allocated (`PageTable.FreeFrame`).
- Physical addresses are 32-bit products. They are distinct for all frames exactly when the frames times the
  page size fit in 2^32 (`AddressesDistinctIff`).
- A coherence write without data gives the line whatever bytes were there. Copies stay up to date exactly when
  the line was written before and either some cache holds it in M or the writer's slot already holds the last
  write (`NullWriteUpToDate`, `NullWriteCounterexample`).
- A read miss on a line that others only share is filled with zeros, and later hits return those zeros, so not
  every read sees the latest write. `CopyIsCurrentIff` and `ReadIsCurrentIff` are the exact condition over whole
  runs, `ReadMissIff` the one for a single miss, `SharedReadLost` a three-cache run.
- The TLB's FIFO policy is described as insertion order but scans the same use stamps as LRU (`FifoIsLru`);
  `FifoOrderIff` says exactly when it still replaces the entry filled first and `FifoCounterexample` is a run
  from reset in which it does not.
- A page-table change without a flush leaves the TLB answering with the old translation exactly when the page is
  cached and its translation changes (`RemapAgreesIff`, `StaleWithoutFlush`).
- The Winograd input index ignores the channel, so every channel's filter is applied to one plane. That is the
  convolution over the planes of all channels, for all planes, exactly when every filter after the first is zero
  (`FirstPlaneIff`); a plane with a single one shows any other filter (`UnitPlanesSum`). With an odd output side
  the last row or column is never written (`CoversAllIff`).
- A DRAM refresh replaces what is left of a bank's wait by its own, so the waits after opening and closing a row
  are complete in every run exactly when tRCD and tRP are at most tRFC + 1 (`OpeningWaitsIff`, `ClosingWaitsIff`);
  `ShortOpening` and `ShortClosing` are runs that cut them short. The default timing is on the safe side.
- With an inner dimension of zero the tensor core clears the result instead of leaving the addend
  (`TensorCore.LargeMatmul`).
- The documented error bound of half a step holds for 8-bit and 4-bit codes when the data range contains zero
  (`ZeroInRange`). `BoundIff` is the exact condition for every type and every range: with qmax the largest code
  and the step s, no element may lie below -(qmax + 1/2) s or above 255.5 s, or for 16 bits above
  (255.5 - qmax) s, because codes are clamped to 8 bits. So constant data away from zero are lost (`ConstantIff`,
  `ConstantHalfLost`), and so is some element of every unclipped 16-bit range (`Fp16Misses`).
- Merging with an empty summary brings in its extremes 0 and 0, which is right exactly when the other part
  spans zero (`MergeEmptyIff`).
- A single empty group makes the analysis of variance report sums that are not numbers (`Anova`).
- The ring router takes any two node numbers below 64, on the ring or not. The route ends at the destination
  modulo the ring and is a shortest one exactly when the two numbers differ by at most the number of nodes
  (`RingShortestIff`); on a ring of four the route from 0 to 5 takes 5 hops for a distance of 1
  (`FarRouteCounterexample`).
- The callers of the routers reserve 16 entries for a path. Every ring route fits exactly up to 31 nodes, every
  mesh route exactly up to a width of 11 (`RingFitsIff`, `MeshFitsIff`).

## Model

| member | source | states |
|---|---|---|
| PerfModel.BuildNormal | lake_test_mini/src/perf_model.c:275-307 | the accumulation loops leave the augmented matrix of the normal equations |
| PerfModel.FindPivot | lake_test_mini/src/perf_model.c:312-319 | the pivot search returns the first row of largest magnitude in the column |
| PerfModel.ForwardEliminate | lake_test_mini/src/perf_model.c:309-338 | in-place elimination succeeds exactly when every column has a pivot of at least 1e-12, and then leaves the eliminated matrix |
| PerfModel.EliminationKeepsKernel | lake_test_mini/src/perf_model.c:309-338 | row swaps and clearing leave a triangular system with exactly the same solutions |
| PerfModel.EliminationUnique | lake_test_mini/src/perf_model.c:321-338 | a system that elimination accepts has at most one solution |
| PerfModel.BackSubstitute | lake_test_mini/src/perf_model.c:340-349 | back substitution solves the triangular system |
| PerfModel.Pythagoras | lake_test_mini/src/perf_model.c:268-354 | the squared error of any vector is that of the solution plus the energy of the difference |
| PerfModel.SolutionMinimises | lake_test_mini/src/perf_model.c:268-354 | no coefficient vector has a smaller sum of squared residuals, for any number of features |
| PerfModel.MinimumIsStrict | lake_test_mini/src/perf_model.c:268-354 | every other coefficient vector has a strictly larger one |
| PerfModel.CollinearRejected | lake_test_mini/src/perf_model.c:321-321 | linearly dependent features are always refused as singular |
| PerfModel.RefusedIsNearlyCollinear | lake_test_mini/src/perf_model.c:309-338 | conversely the features of a refused system are nearly dependent: some combination of them, the last one taken once, has a product below 1e-12 with every feature |
| PerfModel.RSquaredRange | lake_test_mini/src/perf_model.c:356-379 | R squared of a solution with an intercept lies in [0, 1] |
| PerfModel.RSquaredExplains | lake_test_mini/src/perf_model.c:356-379 | R squared times the squared deviations of the responses from their mean is the squared difference between the fit and the mean |
| PerfModel.RSquaredOneIff | lake_test_mini/src/perf_model.c:374-379 | unless all responses are equal it is 1 if and only if the fit leaves no residual |
| PerfModel.RSquaredZeroIff | lake_test_mini/src/perf_model.c:374-379 | it is 0 if and only if all responses are equal or the fit is the mean alone |
| PerfModel.MeanIsBest | lake_test_mini/src/perf_model.c:356-361 | the mean that the total is taken about is the constant with the smallest squared deviations, every other one being strictly worse |
| PerfModel.FitQuality | lake_test_mini/src/perf_model.c:356-379 | the residual and total loops compute one minus the ratio of the squared error to that of the mean |
| PerfModel.PerfPredictor.Train | lake_test_mini/src/perf_model.c:264-380 | returns true exactly for at least 8 samples and an accepted system; then the stored coefficients solve the normal equations and R squared is the share of the deviation from the mean that they explain, 1 exactly without residuals and 0 exactly for the mean alone or equal responses; otherwise nothing changes |
| PerfModel.PerfPredictor.Predict | lake_test_mini/src/perf_model.c:399-410 | the prediction differs from the measurement by the sample's residual |
| AttentionAccel.StableSoftmax | mini-ai-accelerator/src/attention_accel.c:36-62 | subtracting any reference value first gives the same softmax |
| AttentionAccel.SoftmaxStable | mini-ai-accelerator/src/attention_accel.c:36-62 | in place, a row becomes its softmax and other rows are kept; the uniform fallback is unreachable |
| AttentionAccel.AttentionSingleHead | mini-ai-accelerator/src/attention_accel.c:110-187 | without a mask every output entry is the softmax average of a column of values under the scaled scores of the query |
| AttentionAccel.SoftmaxWeighs | mini-ai-accelerator/src/attention_accel.c:173-183 | a dot product with softmax weights is the softmax average |
| AttentionAccel.AverageInRange | mini-ai-accelerator/src/attention_accel.c:36-62 | a softmax average lies between the smallest and largest of the averaged values |
| AttentionAccel.WeightedRescale | mini-ai-accelerator/src/attention_accel.c:482-500 | moving the running maximum scales a partial sum by one exponential |
| AttentionAccel.MergeTile | mini-ai-accelerator/src/attention_accel.c:482-500 | rescaling the sum seen so far and the tile's sum to the new maximum gives the sum over both |
| AttentionAccel.UpdateRow | mini-ai-accelerator/src/attention_accel.c:480-504 | the update keeps m the running maximum, l the sum of exp(s - m) and O the weighted sum, now over the tile too |
| AttentionAccel.ProcessTile | mini-ai-accelerator/src/attention_accel.c:436-505 | one tile advances every query of its block by the tile's columns and no other query |
| AttentionAccel.ScoreAboveFloor | mini-ai-accelerator/src/attention_accel.c:403-406 | a row with a score of at least -1e30 passes the normalisation guard |
| AttentionAccel.FlashIsExact | mini-ai-accelerator/src/attention_accel.c:382-519 | for such a row the tiled value is exactly the softmax average |
| AttentionAccel.FlashMeetsSoftmax | mini-ai-accelerator/src/attention_accel.c:508-516 | in general the two agree exactly when the guard passes or the average is zero |
| AttentionAccel.BelowFloor | mini-ai-accelerator/src/attention_accel.c:403-516 | a single score below -1e30 leaves its value scaled by exp(score + 1e30) when the guard fails, where the average is the value itself |
| AttentionAccel.FlashDiffers | mini-ai-accelerator/src/attention_accel.c:508-516 | for any exponential with exp(1) at least 2 and any positive value w, a score 64 or more below -1e30 (-2e30, say) returns at most 1e-15 w where softmax attention returns w |
| AttentionAccel.FlashAttentionTiled | mini-ai-accelerator/src/attention_accel.c:382-519 | for every block shape that fits the 64-entry row buffers each output entry is the tiled value of its row of scores |
| AttentionAccel.AttentionsAgreeIff | mini-ai-accelerator/src/attention_accel.c:110-519 | the outputs of the two routines are equal if and only if every row passes the guard, but for entries that are zero anyway |
| AttentionAccel.AttentionsAgree | mini-ai-accelerator/src/attention_accel.c:110-519 | the two outputs are equal when each query has one score of at least -1e30, whatever the block shape |
| CacheBench.StackDistanceIsReuseDistance | lake_test_mini/src/cache_bench.c:325-363 | a line's stack position is the number of distinct lines since its last access |
| CacheBench.ResidentMeansRecent | lake_test_mini/src/cache_bench.c:47-104 | a hit means fewer than `ways` distinct lines of the set since the last access |
| CacheBench.MissesMonotone | lake_test_mini/src/cache_bench.c:47-104 | more ways never miss more |
| CacheBench.HitKeeps | lake_test_mini/src/cache_bench.c:59-69 | refreshing one timestamp keeps the set equal to the top of its LRU stack |
| CacheBench.VictimIsBottom | lake_test_mini/src/cache_bench.c:71-86 | the smallest timestamp of a full set belongs to the bottom resident line |
| CacheBench.EvictKeeps | lake_test_mini/src/cache_bench.c:71-104 | replacing that way keeps the set equal to the top of its LRU stack |
| CacheBench.MissKeeps | lake_test_mini/src/cache_bench.c:71-104 | either kind of miss keeps it |
| CacheBench.SimCache.constructor | lake_test_mini/src/cache_bench.c:23-45 | the number of sets, at least one, and an empty valid cache |
| CacheBench.SimCache.Access | lake_test_mini/src/cache_bench.c:47-104 | hits exactly when the line is resident in the LRU model, counts misses, and stays equal to the model |
| CacheBench.SimCache.Flush | lake_test_mini/src/cache_bench.c:106-119 | empties every set and keeps the counters |
| CacheBench.RecordAccess | lake_test_mini/src/cache_bench.c:338-362 | an access counts its stack distance and moves to the top; the full-stack branch is unreachable |
| CacheBench.StackDistBuild | lake_test_mini/src/cache_bench.c:292-394 | the profile lists the positive histogram bins of the trace, the number of references and that of distinct addresses; none for an empty trace |
| CacheBench.HistogramCountsMisses | lake_test_mini/src/cache_bench.c:337-347 | accesses at distance c or more are exactly the misses of a one-set, c-way LRU cache |
| CacheBench.PredictionExact | lake_test_mini/src/cache_bench.c:396-412 | the prediction is exact if and only if the capacity is at most the number of distinct addresses |
| CacheBench.EntriesCoverTrace | lake_test_mini/src/cache_bench.c:364-388 | the entry counts add up to the number of references |
| CacheBench.RateIsMissRate | lake_test_mini/src/cache_bench.c:396-412 | from trace to rate: the rate predicted from the built profile lies in [0, 1] and is misses over references of an LRU cache of c addresses if and only if the trace has at least c distinct addresses |
| CacheBench.LineMisses | lake_test_mini/src/cache_bench.c:47-104 | counting lines instead of addresses adds no miss, and removes none if and only if no access hits through another address of its line |
| CacheBench.PredictionBoundsLines | lake_test_mini/src/cache_bench.c:396-412 | the prediction, made from addresses, bounds the misses of a cache of that many lines from above, exactly in the same case |
| CacheBench.PredictMissRate | lake_test_mini/src/cache_bench.c:396-412 | the rate is the count beyond the capacity in lines over all references, 0 for a zero line size |
| MemController.Controller.Enqueue | mini-cpu-arch/src/memory_system.c:337-351 | appends a stamped request or, when full, drops it; keeps arrival order and all ledgers |
| MemController.PartsOfAddress | mini-cpu-arch/src/memory_system.c:353-362 | byte, bank, part of the row and row come back from the address they make up |
| MemController.AddressParts | mini-cpu-arch/src/memory_system.c:353-362 | every address is made up that way |
| MemController.Controller.Select | mini-cpu-arch/src/memory_system.c:364-386 | picks the first row hit in arrival order, else the oldest request |
| MemController.Controller.Schedule | mini-cpu-arch/src/memory_system.c:361-416 | serves the pick, removes it and nothing else, and charges 10 or 30 cycles |
| MemController.DrainCost | mini-cpu-arch/src/memory_system.c:361-416 | draining n requests costs 10 n plus 20 for each distinct page not open at the start |
| MemController.AnyOrderCost | mini-cpu-arch/src/memory_system.c:388-404 | every service order costs at least that |
| MemController.DrainIsPermutation | mini-cpu-arch/src/memory_system.c:361-416 | draining serves each request exactly once |
| MemController.DrainIsOptimal | mini-cpu-arch/src/memory_system.c:309-322 | no order of the same requests takes fewer cycles |
| MemController.PickIsOldestOfPage | mini-cpu-arch/src/memory_system.c:364-386 | the pick is the oldest pending request of its page |
| MemController.ServeKeepsOrder | mini-cpu-arch/src/memory_system.c:361-416 | requests to one page are served in arrival order, enqueues interleaved |
| MemController.LedgerServe | mini-cpu-arch/src/memory_system.c:388-416 | served count and total latency stay those of the served sequence |
| DramController.Controller.constructor | mini-computer-arch/src/dram_controller.c:56-79 | the initial state, valid, with the given policy, timing and banks |
| DramController.Controller.Enqueue | mini-computer-arch/src/dram_controller.c:81-103 | appends a decoded request to the ring and counts it as read or write, or refuses when full |
| DramController.PartsOfAddress | mini-computer-arch/src/dram_controller.c:37-53 | byte, column, bank, row and rank come back from the address they make up |
| DramController.Controller.ParbsBatch | mini-computer-arch/src/dram_controller.c:182-192 | raises exactly the priorities of requests older than the batch age |
| DramController.Controller.ParbsRank | mini-computer-arch/src/dram_controller.c:194-227 | the swap sort permutes the batched ring window, across wrap-around, into rank order |
| DramController.RanksAgree | mini-computer-arch/src/dram_controller.c:158-180 | at equal priority the swap rule and the FR-FCFS comparator order requests alike, and the comparator is antisymmetric |
| DramController.InOrderTransitive | mini-computer-arch/src/dram_controller.c:194-227 | the rank order is transitive |
| DramController.Controller.IssueHead | mini-computer-arch/src/dram_controller.c:229-283 | the head waits, activates, precharges or is served, with the bank's new state and counters |
| DramController.Controller.Refresh | mini-computer-arch/src/dram_controller.c:328-338 | every configured bank is busy for tRFC and the stall is counted |
| DramController.Controller.Step | mini-computer-arch/src/dram_controller.c:287-319 | a cycle is one step of the specification, under every policy |
| DramController.CycleKeeps | mini-computer-arch/src/dram_controller.c:287-319 | a cycle keeps reads plus writes equal to row hits plus pending, and every accepted request served or pending, once |
| DramController.EnqueueKeeps | mini-computer-arch/src/dram_controller.c:81-103 | so does an arrival |
| DramController.ServedIsBest | mini-computer-arch/src/dram_controller.c:236-277 | under a ranking policy the request served is a row hit that no pending request outranks |
| DramController.OnlyAgedPass | mini-computer-arch/src/dram_controller.c:182-283 | under a ranking policy, while a request older than 500 cycles waits, only requests older than 500 cycles are served |
| DramController.BypassBound | mini-computer-arch/src/dram_controller.c:182-319 | over every run under a ranking policy, for 500 cycles after a request has aged fewer requests than the queue then held are served before it |
| DramController.RunKeeps | mini-computer-arch/src/dram_controller.c:56-338 | every run of arrivals and cycles from the initial state, under any policy, keeps the queue well formed, requests conserved, priorities earned by age, and no bank busy for longer than one command or the last refresh takes |
| DramController.OpenedRowWaits | mini-computer-arch/src/dram_controller.c:112-120 | over every run and policy, after its row is opened a bank gets no command, so serves no request, for tRCD cycles, or tRFC + 1 if that is less |
| DramController.ClosedRowWaits | mini-computer-arch/src/dram_controller.c:122-127 | after its row is closed none for tRP cycles, or tRFC + 1 if that is less |
| DramController.RefreshedBankWaits | mini-computer-arch/src/dram_controller.c:290-338 | from the cycle of a refresh on, a configured bank gets none for tRFC cycles |
| DramController.OpeningWaitsIff | mini-computer-arch/src/dram_controller.c:112-338 | with positive timings and tREFI above tRFC + tRP + tRCD, every run waits the whole tRCD if and only if tRCD is at most tRFC + 1 |
| DramController.ClosingWaitsIff | mini-computer-arch/src/dram_controller.c:122-338 | and the whole tRP if and only if tRP is at most tRFC + 1 |
| DramController.ShortOpening | mini-computer-arch/src/dram_controller.c:112-338 | a run in which a refresh in the cycle after an opening lets the request be served tRFC + 1 cycles after it |
| DramController.ShortClosing | mini-computer-arch/src/dram_controller.c:122-338 | a run in which it lets a row be opened tRFC + 1 cycles after the closing |
| DramController.CountersCount | mini-computer-arch/src/dram_controller.c:112-276 | in every run a bank's counters are the numbers of its openings, of its openings and closings, and of the requests served from it |
| DramController.TotalsCount | mini-computer-arch/src/dram_controller.c:251-338 | the conflict counter is the number of closings, the refresh counter tRFC for every tREFI cycles, the stall counter that plus the cycles with requests and no command |
| DramController.RunFits | mini-computer-arch/src/dram_controller.c:295-307 | with positive tRCD and tRP, in every run the state of a bank fits its row, is open or idle only when ready, and a configured bank is on the way only before its time |
| DramController.OldestHeads | mini-computer-arch/src/dram_controller.c:182-236 | after ranking, the head is one of the oldest aged requests, or a row hit while none of those is one |
| DramController.CommandInTime | mini-computer-arch/src/dram_controller.c:236-283 | the command for such a head serves one of them, lets one row hit pass, or shortens what they still need |
| DramController.OldestAreServed | mini-computer-arch/src/dram_controller.c:182-338 | in every run under a ranking policy, one of the oldest aged requests is served within tRFC + max(tRP, tRCD) + tRCD + 63 k cycles and a tRP for each bank they are for, whatever arrives, for any k with that bound at most 500 k and less than tREFI |
| DramController.OldestIsServed | mini-computer-arch/src/dram_controller.c:182-338 | a single oldest aged request is itself served within tRFC + max(tRP, tRCD) + tRP + tRCD + 63 k cycles |
| DramController.ServedWithin938 | mini-computer-arch/src/dram_controller.c:9-28 | under the default DDR4-3200 timing 938 cycles are enough for any such requests |
| DramController.ServedInOrder | mini-computer-arch/src/dram_controller.c:287-319 | under FCFS every run serves requests in the order they were accepted |
| DramController.CycleMeetsDeadline | mini-computer-arch/src/dram_controller.c:229-338 | a cycle serves the head or leaves its deadline no later and still ahead, refreshes included |
| DramController.ServiceBound | mini-computer-arch/src/dram_controller.c:229-338 | with all 16 banks configured, positive timings and tREFI above tRFC + tRP + tRCD, the head is served within tREFI + tRFC + tRP + tRCD cycles, less than 2 tREFI, whatever arrives |
| Predictor.PerceptronPredictor.constructor | mini-computer-arch/src/predictor.c:339-344 | zero weights, bias and counters |
| Predictor.PerceptronPredictor.Predict | mini-computer-arch/src/predictor.c:346-354 | predicts taken exactly when the weighted sum is not negative |
| Predictor.PerceptronPredictor.Train | mini-computer-arch/src/predictor.c:356-376 | one training step of the specification, 8-bit wrap-around included |
| Predictor.CauchySchwarz | mini-computer-arch/src/predictor.c:349-351 | the squared inner product is at most the product of the squared norms |
| Predictor.UpdateProgress | mini-computer-arch/src/predictor.c:367-374 | an update gains at least the margin along a separating vector while the squared norm grows by at most 2 threshold + 65 |
| Predictor.MistakeBound | mini-computer-arch/src/predictor.c:339-376 | on separable examples any run without wrap-around trains at most 339 times the squared norm of the separator (twice the threshold and 65) |
| Predictor.NoEarlyWrap | mini-computer-arch/src/predictor.c:367-374 | no 8-bit weight wraps before 127 trainings |
| Predictor.StopsBeyondThreshold | mini-computer-arch/src/predictor.c:362-375 | a call trains nothing if and only if the sum has the sign of the outcome and is beyond 137 |
| Predictor.QuietPassIff | mini-computer-arch/src/predictor.c:354-376 | a run trains nothing if and only if it classifies every one of its examples beyond the threshold; then all predictions are right |
| Predictor.RepeatedExample | mini-computer-arch/src/predictor.c:354-376 | one bipolar example presented k times trains min(k, 3) times and ends with the sum 65 min(k, 3) on its side |
| Predictor.Converges | mini-computer-arch/src/predictor.c:354-376 | separable examples are all classified beyond the threshold after more passes than the mistake bound, while no weight wraps |
| Predictor.WrapIsByte | mini-computer-arch/src/predictor.c:372-372 | a weight becomes the one 8-bit value congruent to the sum |
| VirtualMemory.BitWritten | mini-computer-arch/src/virtual_memory.c:37-67 | setting or clearing a bit of the bitmap words changes that bit only |
| VirtualMemory.PageTable.constructor | mini-computer-arch/src/virtual_memory.c:7-25 | a valid empty table, pages capped at the maximum |
| VirtualMemory.PageTable.AllocateFrame | mini-computer-arch/src/virtual_memory.c:37-54 | takes the lowest clear bit, or evicts when none is left; the free count stays the number of clear bits |
| VirtualMemory.PageTable.HandlePageFault | mini-computer-arch/src/virtual_memory.c:69-96 | allocates while a frame is free, else evicts the oldest; the mutual recursion terminates |
| VirtualMemory.PageTable.EvictOldest | mini-computer-arch/src/virtual_memory.c:75-95 | the head of the FIFO loses its page and is queued again |
| VirtualMemory.PageTable.Reference | mini-computer-arch/src/virtual_memory.c:105-123 | makes the page present: a resident page keeps its frame, an absent one takes a free frame or that of the page loaded longest ago; the table stays valid |
| VirtualMemory.PageTable.Translate | mini-computer-arch/src/virtual_memory.c:98-125 | the address is the page's frame times the page size plus the offset in 32 bits, after one reference to the page; an address beyond the table is refused and changes nothing |
| VirtualMemory.PageTable.FreeFrame | mini-computer-arch/src/virtual_memory.c:56-67 | clears one bit with the count; the table stays valid if and only if the frame was not allocated |
| VirtualMemory.ReferenceKeeps | mini-computer-arch/src/virtual_memory.c:98-125 | pages and frames stay in one-to-one correspondence over every reference |
| VirtualMemory.ReferenceKeepsLoadOrder | mini-computer-arch/src/virtual_memory.c:75-93 | the resident pages stay in the order of their latest loads |
| VirtualMemory.VictimLoadedFirst | mini-computer-arch/src/virtual_memory.c:75-77 | the last load of the victim precedes the last load of every other resident page |
| VirtualMemory.ReferenceKeepsTurns | mini-computer-arch/src/virtual_memory.c:37-96 | the k-th load sits in frame k modulo the number of frames: lowest free frames first, then FIFO rotation |
| VirtualMemory.RunKeeps | mini-computer-arch/src/virtual_memory.c:98-125 | over every run from an empty memory: one-to-one mappings, the resident pages are the latest loads in order, each in the frame its load number names |
| VirtualMemory.NoSharing | mini-computer-arch/src/virtual_memory.c:123-124 | distinct addresses of resident pages never share a physical address |
| VirtualMemory.AddressesDistinctIff | mini-computer-arch/src/virtual_memory.c:124-124 | 32-bit physical addresses are distinct if and only if memory fits in 2^32 |
| Coherence.Controller.constructor | mini-computer-arch/src/coherence.c:27-49 | at most the maximum number of caches, all invalid |
| Coherence.Controller.Read | mini-computer-arch/src/coherence.c:61-134 | a hit, a supplied modified copy or a zero fill, changing one column as specified, keeping coherence and currency |
| Coherence.Controller.Write | mini-computer-arch/src/coherence.c:136-189 | the new column and last write, keeping coherence always and currency for writes with data |
| Coherence.Controller.Snoop | mini-computer-arch/src/coherence.c:191-214 | a snooped write drops that cache's copy; keeps coherence and currency |
| Coherence.ReadKeeps | mini-computer-arch/src/coherence.c:61-134 | after a read an M or E copy is the only one, the reader holds the line, and no copy shows an overwritten write |
| Coherence.WriteKeeps | mini-computer-arch/src/coherence.c:136-189 | after a write the single owner is the writer, in M |
| Coherence.WriterIsAlone | mini-computer-arch/src/coherence.c:154-168 | no other cache holds the written line |
| Coherence.WriteUpToDate | mini-computer-arch/src/coherence.c:136-189 | after a write with data every M copy is the last write and every other copy is it or the zero fill |
| Coherence.NullWriteUpToDate | mini-computer-arch/src/coherence.c:148-182 | a write without data keeps that if and only if the line was written before and some cache holds it in M or the writer's slot holds the last write |
| Coherence.NullWriteCounterexample | mini-computer-arch/src/coherence.c:170-172 | for any 64 bytes the previous occupant's data appear under the new tag |
| Coherence.ReadAfterWrite | mini-computer-arch/src/coherence.c:61-189 | the read that follows a write of the line, by any cache, returns the data written |
| Coherence.ExclusiveFillIff | mini-computer-arch/src/coherence.c:87-125 | a read miss leaves the reader's line exclusive if and only if the protocol has that state and no other cache held the line |
| Coherence.LoneReaderWritesSilently | mini-computer-arch/src/coherence.c:61-153 | a cache that read a line nobody held, and was alone with it since, writes it without touching any other cache |
| Coherence.NeverExclusive | mini-computer-arch/src/coherence.c:117-125 | without the exclusive mode no run reaches the state |
| Coherence.SnoopDrops | mini-computer-arch/src/coherence.c:191-217 | a snooped write drops the cache's copy, a snooped read nothing, and no other cache changes |
| Coherence.ReadMissIff | mini-computer-arch/src/coherence.c:84-128 | a read miss returns the last write if and only if some cache holds the line in M, or that write was zeros |
| Coherence.SharedReadLost | mini-computer-arch/src/coherence.c:127-127 | after a write of anything but zeros and one remote read, a third cache reads zeros, on the miss and on every later hit, while the others still read the write |
| Coherence.RunKeeps | mini-computer-arch/src/coherence.c:61-214 | over every run of reads, writes with data and snoops by any number of caches: one owner of every line, every M copy the last write, every other copy it or the zero fill |
| Coherence.CopyIsCurrentIff | mini-computer-arch/src/coherence.c:61-214 | over every run from empty caches, a valid copy equals the last write if and only if its cache wrote the line or last filled it from an M copy, or that write was zeros |
| Coherence.ReadIsCurrentIff | mini-computer-arch/src/coherence.c:61-134 | a read, hit or miss, returns the last write under exactly that condition |
| Coherence.SnoopKeeps | mini-computer-arch/src/coherence.c:191-214 | a snoop keeps single ownership and currency |
| Coherence.StepCurrent | mini-computer-arch/src/coherence.c:51-54 | a step on one column keeps every other column current, for the whole controller |
| Mmu.PageTable.MapPage | mini-cpu-arch/src/memory_system.c:79-91 | installs one valid entry and leaves the rest |
| Mmu.PageTable.UnmapPage | mini-cpu-arch/src/memory_system.c:93-96 | clears one entry and leaves the rest |
| Mmu.PageTable.LookupPage | mini-cpu-arch/src/memory_system.c:98-103 | the bare page walk |
| Mmu.Tlb.LookupEntry | mini-cpu-arch/src/memory_system.c:125-145 | the first matching entry, whose stamp alone is refreshed |
| Mmu.Tlb.FindSlot | mini-cpu-arch/src/memory_system.c:163-198 | the first invalid slot, else the policy's victim |
| Mmu.Tlb.InsertEntry | mini-cpu-arch/src/memory_system.c:147-212 | updates the existing entry or fills the slot, nothing else |
| Mmu.Tlb.FlushEntries | mini-cpu-arch/src/memory_system.c:214-221 | drops the entries that are not global |
| Mmu.TranslateAddress | mini-cpu-arch/src/memory_system.c:244-269 | answers and changes the TLB as the specification step does |
| Mmu.TranslateKeeps | mini-cpu-arch/src/memory_system.c:125-269 | valid entries keep distinct pages and keep agreeing with the page table |
| Mmu.TranslatesToMappedPage | mini-cpu-arch/src/memory_system.c:244-270 | with a consistent TLB an address translates exactly when its page is mapped, to the same offset of the mapped page, whose number keeps 20 bits |
| Mmu.ComposeEqualIff | mini-cpu-arch/src/memory_system.c:253-268 | two physical addresses are equal if and only if the page numbers agree modulo 2^20 and the offsets agree |
| Mmu.TranslationIsCached | mini-cpu-arch/src/memory_system.c:244-270 | a translated page answers the same from the TLB next time; other pages keep their answer or are dropped, none while a slot is free |
| Mmu.WorkingSetStays | mini-cpu-arch/src/memory_system.c:110-113 | a run whose pages are no more than the TLB has entries evicts nothing, under every policy |
| Mmu.InsertedIsFound | mini-cpu-arch/src/memory_system.c:147-211 | an insertion is found again, and takes no other slot when the page was there |
| Mmu.MapIsSeen | mini-cpu-arch/src/memory_system.c:79-103 | the walk sees a mapping and no longer sees one that was removed |
| Mmu.FlushDropsPrivate | mini-cpu-arch/src/memory_system.c:214-221 | a flush drops exactly the private entries |
| Mmu.MapKeepsIff | mini-cpu-arch/src/memory_system.c:79-96 | installing or clearing a page-table entry without a flush keeps the TLB consistent if and only if the page is not cached or keeps its translation |
| Mmu.RemapAgreesIff | mini-cpu-arch/src/memory_system.c:244-269 | after a remap or unmap without a flush every page is answered as the walk answers if and only if the page was not cached or keeps its translation |
| Mmu.RunAgrees | mini-cpu-arch/src/memory_system.c:79-269 | over every run that flushes after each remap or unmap that changes a cached page, all answers equal the bare walk's |
| Mmu.RunKeeps | mini-cpu-arch/src/memory_system.c:119-269 | over every run, flushed or not, cached pages stay distinct, each stamped with its last use and filled before |
| Mmu.FreshMapKeeps | mini-cpu-arch/src/memory_system.c:79-91 | a page that is not mapped is not cached, so mapping it needs no flush |
| Mmu.StaleWithoutFlush | mini-cpu-arch/src/memory_system.c:79-91 | a remap without a flush leaves a cached page answering with the old frame |
| Mmu.VictimIsLeastRecent | mini-cpu-arch/src/memory_system.c:163-186 | the last use of the page replaced by age precedes the last use of every other cached page |
| Mmu.FifoIsLru | mini-cpu-arch/src/memory_system.c:172-186 | the FIFO policy picks the same victim as LRU |
| Mmu.FifoOrderIff | mini-cpu-arch/src/memory_system.c:112-186 | the FIFO victim is the entry filled first if and only if that entry's last use precedes every other entry's |
| Mmu.UnhitIsReplaced | mini-cpu-arch/src/memory_system.c:172-186 | an entry filled first and not hit since is the FIFO victim |
| Mmu.FifoCounterexample | mini-cpu-arch/src/memory_system.c:112-269 | from reset, translating pages 0 to 63, then 0 again, then 64 replaces page 1 under FIFO, though page 0 was filled first |
| Winograd.WinogradTile | mini-ai-accelerator/src/mma.c:182-267 | transforming the elementwise product back gives the 2x2 valid correlation of the 4x4 tile with the 3x3 filter |
| Winograd.OutputAdds | mini-ai-accelerator/src/mma.c:252-267 | the output transform is additive, so products may be summed over channels before it |
| Winograd.Transform | mini-ai-accelerator/src/mma.c:206-267 | the transform loops compute the two-sided product with the given matrix |
| Winograd.ConvolveTile | mini-ai-accelerator/src/mma.c:310-346 | one tile holds the summed correlations of all channels' filters with the window |
| Winograd.Convolve | mini-ai-accelerator/src/mma.c:284-359 | every covered output is the summed direct correlation, every other output and every refused call leaves the output as it was |
| Winograd.CoversAllIff | mini-ai-accelerator/src/mma.c:290-293 | all outputs are written if and only if both output sides are even |
| Winograd.FirstPlaneIff | mini-ai-accelerator/src/mma.c:315-331 | the one-plane sum is the sum over separate planes, for all planes and outputs, if and only if every filter after the first is zero |
| Winograd.UnitPlanesSum | mini-ai-accelerator/src/mma.c:315-331 | on planes that are zero but for a one at (r, s) of plane c > 0 the first output should be entry (r, s) of filter c; reading one plane gives 0 |
| Tiling.PaddedDot | mini-ai-accelerator/src/mma.c:65-82 | zero-padded tile rows contribute exactly the products of their part of the range |
| Tiling.ExtendEntry | mini-ai-accelerator/src/mma.c:63-94 | one tile step advances an entry from its first k0 products to k0 + t |
| Mma.TileMatmul | mini-ai-accelerator/src/mma.c:33-45 | the t x t corner becomes the addend plus the product |
| Mma.MultiplyBlock | mini-ai-accelerator/src/mma.c:65-91 | a tile step advances every entry of its block, inside the matrix, and no other entry |
| Mma.LargeMatmul | mini-ai-accelerator/src/mma.c:47-94 | every entry is its addend, or zero, plus the full inner product, for all sizes and tile sides |
| TensorCores.RoundedTile | mini-ai-accelerator/src/tensor_core.c:549-577 | zero padding survives a rounding that keeps zero |
| TensorCores.Fragment.constructor | mini-ai-accelerator/src/tensor_core.c:311-338 | a cleared fragment with its sides capped at 16 |
| TensorCores.TensorCore.Mma | mini-ai-accelerator/src/tensor_core.c:438-459 | the fragment's result is the addend plus the product of the rounded inputs; one more operation counted |
| TensorCores.TensorCore.StepBlock | mini-ai-accelerator/src/tensor_core.c:554-591 | a tile step advances the accumulated block by 16 products |
| TensorCores.TensorCore.LargeMatmul | mini-ai-accelerator/src/tensor_core.c:512-602 | every entry is its addend plus the inner product of the rounded inputs, zero for an empty inner dimension; operations are the product of the tile counts |
| Quantization.FindParams | mini-ai-accelerator/src/quantization.c:8-44 | the extremes of the data and the scale and zero point chosen from them; all zero for no data |
| Quantization.Quantize | mini-ai-accelerator/src/quantization.c:46-55 | every element becomes its rounded and clamped code; with a zero scale, whose reciprocal is infinite, 255 or 0 by its sign |
| Quantization.Dequantize | mini-ai-accelerator/src/quantization.c:57-62 | every code becomes its value |
| Quantization.RoundIs | mini-ai-accelerator/src/quantization.c:38-50 | rounding gives the nearest integer, and of two equally near ones the one further from zero |
| Quantization.StepsSpanRange | mini-ai-accelerator/src/quantization.c:20-33 | 255, 15 or 65535 steps span the data, or 1e-7 when the data span less |
| Quantization.ZeroScaleIsLimit | mini-ai-accelerator/src/quantization.c:46-55 | the codes of a zero scale are those of every small enough positive one |
| Quantization.HalfStepIff | mini-ai-accelerator/src/quantization.c:46-62 | for any parameters a value is reproduced to within half a step if and only if its unclamped code is in reach |
| Quantization.ZeroInRange | mini-ai-accelerator/README.md:169 | data whose range contains zero is reproduced to within half a step, for 8-bit and 4-bit codes |
| Quantization.BoundIff | mini-ai-accelerator/src/quantization.c:20-55 | for every type and range, clipped or not, the bound holds if and only if no element lies below -(qmax + 1/2) steps or above 255.5 steps, for 16 bits above 255.5 - qmax steps |
| Quantization.ConstantIff | mini-ai-accelerator/src/quantization.c:31-32 | constant data meet it if and only if they lie between -(qmax + 1/2) and 255.5 steps of 1e-7 / qmax |
| Quantization.ConstantHalfLost | mini-ai-accelerator/src/quantization.c:31-41 | the constant 0.5 in 8 bits dequantises to 1e-7 |
| Quantization.Fp16Misses | mini-ai-accelerator/src/quantization.c:25-28 | 16-bit parameters always lose an element of an unclipped range |
| Quantization.CodeRoundTrip | mini-ai-accelerator/src/quantization.c:46-62 | quantising a dequantised code gives the code back |
| Quantization.CodesMonotone | mini-ai-accelerator/src/quantization.c:46-55 | larger values never get smaller codes |
| Interconnect.MeshRoute | mini-computer-arch/src/interconnect.c:52-89 | the path is the dimension-ordered route, with as many hops as the coordinates differ; a node outside the mesh gives the one-node path |
| Interconnect.NodeRouteSound | mini-computer-arch/src/interconnect.c:65-88 | a route starts at the source, ends at the destination, moves between grid neighbours and climbs the channel numbers |
| Interconnect.MeshShortest | mini-computer-arch/src/interconnect.c:75-88 | no walk between the two nodes is shorter |
| Interconnect.NoCyclicDependency | mini-computer-arch/src/interconnect.c:75-88 | no chain of channels used one after the other by routes returns to its first channel |
| Interconnect.RingRoute | mini-computer-arch/src/interconnect.c:91-119 | a neighbour walk from the source to the destination, both modulo the ring, of the smaller 32-bit distance; between nodes of the ring that is the ring distance, at most half the ring |
| Interconnect.RingShortest | mini-computer-arch/src/interconnect.c:100-101 | no walk around the ring is shorter than the ring distance |
| Interconnect.RingShortestIff | mini-computer-arch/src/interconnect.c:91-139 | for any two admitted nodes the route takes the ring distance of their numbers modulo the ring if and only if they differ by at most the number of nodes |
| Interconnect.FarRouteCounterexample | mini-computer-arch/src/interconnect.c:91-139 | on a ring of four the routes from 0 to 5 and to 63 take 5 and 63 hops where the distance is 1 |
| Interconnect.RingFitsIff | mini-computer-arch/src/interconnect.c:158-163 | all routes of a ring of at most 64 nodes fit in 16 entries if and only if it has at most 31 |
| Interconnect.MeshFitsIff | mini-computer-arch/src/interconnect.c:158-163 | all mesh routes between admitted nodes fit in 16 entries if and only if the width is at most 11 |
| WorkloadGen.Histogram | lake_test_mini/src/workload_gen.c:282-291 | each bin is the number of occurrences of its key |
| WorkloadGen.Collect | lake_test_mini/src/workload_gen.c:293-308 | the positive counts of keys other than 0, in key order |
| Sorting.SortAscending | lake_test_mini/src/workload_gen.c:310-319 | the swap sort leaves an ascending permutation |
| WorkloadGen.FrequencyPerKey | lake_test_mini/src/workload_gen.c:293-297 | one frequency for each distinct counted key |
| WorkloadGen.PairPermutes | lake_test_mini/src/workload_gen.c:310-319 | the sum of pairwise differences does not depend on the order |
| WorkloadGen.SortedPairGaps | lake_test_mini/src/workload_gen.c:321-338 | over ascending values it is twice the rank-weighted sum less n + 1 times the sum |
| WorkloadGen.Gini | lake_test_mini/src/workload_gen.c:271-343 | the result is half the relative mean absolute difference of the key frequencies |
| WorkloadGen.KeysRange | lake_test_mini/src/workload_gen.c:321-323 | for any keys it lies in [0, (n - 1) / n] for n distinct counted keys, and is 0 for none |
| WorkloadGen.GiniZeroIff | lake_test_mini/src/workload_gen.c:321-323 | it is zero if and only if all frequencies are equal |
| ResultAnalyze.Compute | lake_test_mini/src/result_analyze.c:30-66 | count, mean, population variance and extremes of the data |
| ResultAnalyze.AboutMean | lake_test_mini/src/result_analyze.c:60-66 | squares about any point are squares about the mean plus the squared offset once per element |
| ResultAnalyze.MergeDescribes | lake_test_mini/src/result_analyze.c:155-181 | merging the summaries of two non-empty parts gives the summary of the whole |
| ResultAnalyze.OneSummary | lake_test_mini/src/result_analyze.c:30-66 | data have exactly one summary, so a merged and a computed one are equal |
| ResultAnalyze.MergeEmptyIff | lake_test_mini/src/result_analyze.c:155-181 | merging in the empty summary is harmless if and only if the other part spans zero |
| ResultAnalyze.Decomposition | lake_test_mini/src/result_analyze.c:425-456 | within plus between sums are the squared deviations of all elements, about any point, empty groups counting for nothing |
| ResultAnalyze.BetweenSign | lake_test_mini/src/result_analyze.c:425-434 | the between sum is not negative, and zero if and only if the mean of every non-empty group is the given point |
| ResultAnalyze.Anova | lake_test_mini/src/result_analyze.c:407-475 | without empty groups the reported total is the squared deviation from the grand mean and eta squared the between share, in [0, 1]; an empty group makes the between and total sums not numbers and eta squared 0; degrees of freedom add up |

## Left out

- Printing, demonstrations, configuration tables, allocation failure and null arguments.
- Floating-point rounding, and wrap-around of counters, timestamps and of the perceptron's 32-bit bias and sum.
- Row-major index arithmetic of the flat numeric buffers: two- and three-dimensional arrays stand for them.
- PerfPredictor.Train: adjusted R squared, root mean square error and the F statistic are thin formulas, the first and last dividing by zero at 9 or 8 samples; they are not part of the state it promises.
- AttentionSingleHead: attention masks and the optional weights output; without a mask only.
- FlashAttentionTiled: blocks of more than 64 rows are excluded, because the row buffers of the routine hold 64 entries; its approximate weights output is left out.
- Multi-head splitting and the key-value cache.
- SimCache.Access: dirty bits, write-back and eviction counters.
- SimCache.Flush: the write-back counter.
- StackDistBuild: the cumulative probability of each entry.
- IssueHead: the bank-parallelism counters.
- Step: bandwidth and bank-parallelism statistics, the interference model, hashes and the transaction queue of the DRAM controller.
- ServiceBound: stated for FCFS and all 16 banks configured; a bank outside the configured ones is never refreshed or settled.
- OldestAreServed: a bound for the oldest aged requests only; younger ones have it once those ahead are served.
- The bimodal, two-level, gshare, tournament and TAGE predictors, the branch target buffer and the return stack.
- The virtual-memory file's own TLB, an easier variant of the MMU's; writing back dirty pages, which the code leaves empty.
- Read: the coherence directory and the access, miss and write-back counters.
- Write: the coherence directory and the transaction, write-back and invalidation counters.
- Snoop: the invalidation counter.
- Page-table levels and permission checks of the MMU beyond what translation reads.
- im2col, depthwise convolution, structured sparsity, and the conversions behind the tensor core's rounding, which is any function that keeps zero.
- Quantize: an element 0 under a zero scale is excluded; the code then converts a value that is not a number.
- Per-channel, symmetric and dynamic quantisation, 4-bit packing, half-precision conversion and calibration.
- Bus, crossbar and tree routes, and latency and bandwidth tables, which are constants.
- MeshRoute: mesh widths of 65536 and more, where the 32-bit square of the width wraps; the same goes for MeshFitsIff.
- Compute: standard deviation, median, percentiles and shape statistics; the library sort is modelled by the swap sort of `Sorting`.
- MergeDescribes: the merged standard deviation, the square root of the merged variance.
- Anova: mean squares, the F statistic and the fixed p-value.
- Pipelines, out-of-order cores, systolic arrays, sparse formats and the remaining workload generators.
