# java_mastery benchmark harness, modelled in Dafny

This project models the computational core of the `java_mastery` course repository:

- **The module6 benchmark sweepers** (`GCOptimizationSweeper`, `OptimizationSweeper`, `RiskAnalysisServer`).
  - The scalar and SIMD dot-product kernels. The three files carry the same code, so it is modelled once in `Kernels`.
  - Per-burst metrics: requests per second, GigaOps, P99 latency and peak heap.
  - Population mean and variance over repeated runs.
  - The data-major sweep over (data size, concurrency) configurations.
  - The "best compute" selection.
  - The 3×3 risk-analysis scenario matrix.
- **The module7 long-running GC stability harness** (`LongRunningGCStability`).
  - Argument parsing with `Integer.parseInt`.
  - The worker task's bookkeeping: the latency queue and the request counter.
  - The reporter's once-per-second pass: deadline, queue drain, P99 in ms, heap in MiB, summed GC time, throughput delta, the CSV header and rows.
- **The small demos:**
  - element-wise `int` addition, scalar and chunked;
  - carrier-name extraction from a virtual thread's `toString()`;
  - the JIT hot-loop calculation;
  - record validation and sealed-type dispatch;
  - shape areas.

Several things from the outside world become parameters of the model: clock readings, heap and garbage-collector readings, task timings, and the file system's answers. Concurrency is not modelled; where threads interleave, an explicit event sequence stands in for them.

Numeric modelling:
- Java `int` arithmetic is modelled in `JavaInt`: 32-bit wrap-around, and `/` and `%` that truncate toward zero.
- `float` and `double` values are modelled as exact reals.
- The SIMD lane count W is a positive parameter.

Module layout:

| Module | Models |
|---|---|
| `Wrappers` | `Option` and `Result` |
| `JavaInt` | Java `int` semantics |
| `Kernels` | dot-product kernels |
| `Statistics` | mean and variance |
| `Percentile` | sort and P99 |
| `Rates` | throughput and unit conversions |
| `SweepOrder` | nested-loop visiting order |
| `GcSweeper` | `module6/GCOptimizationSweeper.java` |
| `OptSweeper` | `module6/OptimizationSweeper.java` |
| `RiskAnalysis` | `module6/RiskAnalysisServer.java` |
| `JavaText` | `Integer.parseInt` and `Integer.toString` |
| `Stability` | `module7/LongRunningGCStability.java` |
| `VectorDemo` | `module4/VectorDemo.java` |
| `Carrier` | `module3/DeepDiveVirtualThreads.java` |
| `JitDemo` | `module1/JITDemo.java` |
| `DataModeling` | `module2/DataModeling.java` |
| `ModernData` | `module2/ModernData.java` |

Classes model the objects whose fields the source updates in place:
- `GcSweeper.MemoryTracker`.
- `Stability.Harness`, the static fields shared by `main`, the workers and the reporter.
- `Stability.Reporter`, the reporter thread's locals between two passes of its loop.

## Model

| member | source | states |
|---|---|---|
| JavaInt.Wrap32 | module4/VectorDemo.java:54 | the result is the unique `int` congruent to the exact value modulo 2^32, and equals the exact value when that fits |
| JavaInt.JavaDiv | module7/LongRunningGCStability.java:165 | the quotient truncates toward zero: \|q\|·\|y\| ≤ \|x\| < (\|q\|+1)·\|y\|, with the sign of x·y when non-zero |
| JavaInt.JavaRem | module1/JITDemo.java:21 | x == (x / y)·y + r, \|r\| < \|y\|, and r has the sign of the dividend |
| Kernels.CalculateScalar | module6/GCOptimizationSweeper.java:208-214 | the loop returns Σ a[i]·b[i] over i < length |
| Kernels.CalculateVector | module6/GCOptimizationSweeper.java:216-230 | whole W-lane chunks up to `loopBound(length)` are accumulated lane-wise, then reduced, then the scalar tail is added; the result is the same sum of products as the scalar kernel |
| Kernels.DotRangeSplit | module6/GCOptimizationSweeper.java:218-228 | the sum of products over [lo, hi) splits at any midpoint, so chunks plus tail cover the whole range |
| Kernels.LaneSumOfChunk | module6/GCOptimizationSweeper.java:221-225 | reducing the lane-wise products of one chunk gives the sum of products over that chunk's indices |
| Kernels.ChunkStep | module6/GCOptimizationSweeper.java:220-224 | adding one chunk's lane products to lanes that sum to the prefix's dot product gives the dot product of the prefix extended by W |
| Kernels.LoopBound | module4/VectorDemo.java:73 | `loopBound(len)` is a multiple of W with loopBound ≤ len < loopBound + W |
| Kernels.LoopBoundIsLargest | module4/VectorDemo.java:67-73 | every multiple of W that is at most len is at most `loopBound(len)`: it is the largest such multiple |
| Kernels.LoopBoundExample | module4/VectorDemo.java:68-72 | length 100 with W = 8 gives 96, leaving the 4 tail elements 96..99 |
| Kernels.IndexCoverage | module6/GCOptimizationSweeper.java:218-228 | each index below length is either lane j mod W of the chunk at (j/W)·W, which ends at or before loopBound, or is in the tail, which is shorter than one chunk |
| Statistics.Mean | module6/GCOptimizationSweeper.java:116-117 | `getAverage()`: 0 for no values, otherwise the value whose N-fold is the sum |
| Statistics.Variance | module6/GCOptimizationSweeper.java:118 | the population variance, the mean squared deviation, is never negative |
| Statistics.StatsOf | module6/RiskAnalysisServer.java:32-37 | the population variance (squared deviations from the mean, divided by N) is never negative |
| Statistics.SumBetween | module6/GCOptimizationSweeper.java:116 | values between lo and hi sum to between N·lo and N·hi |
| Statistics.MeanBetween | module6/GCOptimizationSweeper.java:116-117 | the average lies between any lower and upper bound of the values |
| Statistics.SumNonNegative | module6/GCOptimizationSweeper.java:118 | non-negative terms have a non-negative sum that is zero only when every term is zero |
| Statistics.MeanPositive | module6/RiskAnalysisServer.java:34 | positive values have a positive mean |
| Statistics.SumPositive | module6/RiskAnalysisServer.java:33 | a non-empty list of positive values has a positive sum |
| Statistics.VarianceNonNegative | module6/GCOptimizationSweeper.java:118 | the variance is never negative |
| Statistics.VarianceZeroIffAllEqual | module6/GCOptimizationSweeper.java:118 | the variance is zero exactly when all values are equal (both directions) |
| Statistics.StdDevZeroIffAllEqual | module6/GCOptimizationSweeper.java:119 | the non-negative square root of the variance is zero exactly when all values are equal |
| Statistics.SquareZero | module6/GCOptimizationSweeper.java:118 | a deviation whose square is zero is zero |
| Statistics.PopulationVarianceExample | module6/RiskAnalysisServer.java:35 | division is by N, not N−1: [1, 3] has mean 2 and variance 1 |
| Percentile.Insert | module6/GCOptimizationSweeper.java:166 | inserting into a sorted list keeps it sorted and adds exactly that element |
| Percentile.SortAsc | module6/GCOptimizationSweeper.java:166 | `Collections.sort` yields an ascending permutation of the samples |
| Percentile.P99Index | module6/GCOptimizationSweeper.java:167 | the index k is floor(0.99·n): 100k ≤ 99n < 100(k+1), and k < n when n > 0 |
| Percentile.P99 | module6/GCOptimizationSweeper.java:165-167 | the 99th-percentile latency of a non-empty list is one of its samples |
| Percentile.SortedUnique | module7/LongRunningGCStability.java:178 | two sorted lists with the same elements are equal: there is one sorted order |
| Percentile.P99OrderIndependent | module6/GCOptimizationSweeper.java:165-167 | the percentile depends only on which samples arrived, not in which order |
| Percentile.P99OfSorted | module6/GCOptimizationSweeper.java:165-167 | on an already sorted list the percentile is the element at floor(0.99·n) |
| Percentile.P99IsSample | module6/GCOptimizationSweeper.java:167 | for a non-empty list the percentile is one of the samples |
| Percentile.P99Bounded | module6/GCOptimizationSweeper.java:167 | bounds on every sample bound the percentile |
| Percentile.P99OfFewIsMax | module6/GCOptimizationSweeper.java:167 | with 1 to 100 samples the index is n−1, so the percentile is the largest sample |
| Percentile.P99IndexExamples | module7/LongRunningGCStability.java:181 | 100 samples give index 99, 1 gives 0, 1000 give 990 |
| Percentile.P99SmallExamples | module6/GCOptimizationSweeper.java:167 | no samples give 0; one sample gives itself |
| Percentile.P99Examples | module6/GCOptimizationSweeper.java:165-167 | [30, 10, 20] gives 30 |
| Rates.Rate | module6/OptimizationSweeper.java:124-125 | rate × (duration ns / 10^9) equals the request count; never negative for a non-negative count |
| Rates.GigaOps | module6/OptimizationSweeper.java:103-106 | GigaOps × 10^9 equals 2 · requests per second · data size; never negative for non-negative inputs |
| Rates.BytesToMb | module6/GCOptimizationSweeper.java:199-201 | MiB × 1,048,576 equals the byte count |
| Rates.GigaOpsIsOpsPerNanosecond | module6/GCOptimizationSweeper.java:159-163 | GigaOps of a burst's rate times its duration in ns is 2 · requests · data size: floating-point operations per nanosecond |
| Rates.RateFallsWithTime | module6/OptimizationSweeper.java:124-125 | for a fixed request count, a longer burst never reports a higher rate |
| Rates.BytesToMbMonotone | module7/LongRunningGCStability.java:186-187 | more bytes never give fewer MiB |
| Rates.RateExample | module6/OptimizationSweeper.java:103-106 | 1,000 requests in 0.5 s give 2,000 req/s; at data size 1,000 that is 0.004 GigaOps; 3 MiB of bytes gives 3.0 |
| SweepOrder.RowPairs | module6/OptimizationSweeper.java:61 | the inner loop visits (d, cs[i]) for each concurrency level in order |
| SweepOrder.Pairs | module6/OptimizationSweeper.java:60-61 | the nested loops visit \|ds\|·\|cs\| configurations |
| SweepOrder.PairsAt | module6/OptimizationSweeper.java:60-61 | the configuration at position di·\|cs\| + ci is (ds[di], cs[ci]): data-major order |
| GcSweeper.LatencyUs | module6/GCOptimizationSweeper.java:149 | the latency is the elapsed ns divided by 1000 and truncated, never negative for a forward clock |
| GcSweeper.Latencies | module6/GCOptimizationSweeper.java:149 | one latency per task, in completion order |
| GcSweeper.PeakAfter | module6/GCOptimizationSweeper.java:177-181 | the running peak never falls below its start and is the start or one of the readings |
| GcSweeper.PeakAfterBounds | module6/GCOptimizationSweeper.java:177-181 | the running peak is at least its start and at least every reading |
| GcSweeper.PeakAfterAttained | module6/GCOptimizationSweeper.java:179-180 | the running peak is its start or one of the readings |
| GcSweeper.MemoryTracker.constructor | module6/GCOptimizationSweeper.java:173-174 | a new tracker is running with peak 0 |
| GcSweeper.MemoryTracker.Poll | module6/GCOptimizationSweeper.java:178-181 | one poll raises the peak to the reading if higher; the peak never decreases |
| GcSweeper.MemoryTracker.Run | module6/GCOptimizationSweeper.java:176-188 | while running, the peak becomes the running maximum over the readings; a stopped tracker changes nothing |
| GcSweeper.MemoryTracker.StopTracking | module6/GCOptimizationSweeper.java:190-197 | stopping clears `running` and leaves the peak as it is |
| GcSweeper.MemoryTracker.PeakMemoryMb | module6/GCOptimizationSweeper.java:199-201 | the peak in MiB times 1,048,576 is the peak in bytes |
| GcSweeper.BurstThroughputMeaning | module6/GCOptimizationSweeper.java:159-163 | a burst's rate times its duration is its request count; its GigaOps times its duration in ns is 2 · requests · data size |
| GcSweeper.BurstLatencyMeaning | module6/GCOptimizationSweeper.java:165-167 | the P99 latency is 0 with no tasks, and otherwise the latency of one of them |
| GcSweeper.BurstMemoryMeaning | module6/GCOptimizationSweeper.java:156-157 | the reported peak memory is non-negative and covers every heap reading of the burst |
| GcSweeper.BurstMetrics | module6/GCOptimizationSweeper.java:159-169 | the four metrics of a burst; what they mean is stated by `GcSweeper.BurstThroughputMeaning`, `GcSweeper.BurstLatencyMeaning` and `GcSweeper.BurstMemoryMeaning` |
| GcSweeper.RunBurst | module6/GCOptimizationSweeper.java:122-170 | once every task has joined, the tracker is stopped and the four metrics are derived from the observation |
| GcSweeper.Measure | module6/GCOptimizationSweeper.java:107-113 | five bursts, in order, one metrics record each |
| GcSweeper.Column | module6/GCOptimizationSweeper.java:116 | the mapper applied to every run, in order |
| GcSweeper.CalcStats | module6/GCOptimizationSweeper.java:115-120 | mean and variance of one metric; the variance is never negative |
| GcSweeper.CalcStatsMeaning | module6/GCOptimizationSweeper.java:115-120 | the mean lies within any bounds of the metric, and the variance is zero exactly when every run reports the same value |
| GcSweeper.Summarize | module6/GCOptimizationSweeper.java:82-85 | the four metric summaries of one executor's runs, each with a non-negative variance |
| GcSweeper.MeasuredRuns | module6/GCOptimizationSweeper.java:107-113 | five runs, each the metrics of its own observation |
| GcSweeper.RowFor | module6/GCOptimizationSweeper.java:77-92 | a row records its configuration's concurrency and data size, whatever order the pair is visited in |
| GcSweeper.MeasureRow | module6/GCOptimizationSweeper.java:81-92 | legacy then modern runs, each summarised metric by metric |
| GcSweeper.Sweep | module6/GCOptimizationSweeper.java:77-104 | one row per configuration in data-major order; row k summarises the k-th observations |
| GcSweeper.SweepMain | module6/GCOptimizationSweeper.java:51-104 | with `main`'s own steps the sweep yields two rows, concurrency 10,000 then 50,000 at data size 1,000, every data size within the arrays |
| OptSweeper.Speedup | module6/OptimizationSweeper.java:75 | with a positive legacy rate, speedup × legacy = modern; otherwise 0 |
| OptSweeper.MakeResult | module6/OptimizationSweeper.java:64-77 | a result records its own data size and concurrency, and each rate times its burst's duration in seconds is the concurrency |
| OptSweeper.MakeResultMeaning | module6/OptimizationSweeper.java:64-77 | a result records its configuration, its modern GigaOps is 2 · concurrency · size per modern ns, and its speedup is the legacy/modern duration ratio |
| OptSweeper.BestOf | module6/OptimizationSweeper.java:58-81 | the kept record is the all-zero start or one of the results |
| OptSweeper.BestIsMaximum | module6/OptimizationSweeper.java:58-81 | the best result's modern GigaOps is at least 0 and at least every result's |
| OptSweeper.BestStaysEmpty | module6/OptimizationSweeper.java:58 | if no result beats 0 GigaOps, the all-zero initial result is kept |
| OptSweeper.BestIsFirstMaximum | module6/OptimizationSweeper.java:80-81 | otherwise the best is a result from the list, and strictly better than every earlier one: ties keep the first |
| OptSweeper.RunTask | module6/OptimizationSweeper.java:116-121 | a task completes exactly when the data size fits both arrays, and then computes the dot product; otherwise the array-index exception ends it |
| OptSweeper.MeasureConfiguration | module6/OptimizationSweeper.java:64-78 | the recorded result is the one the timings determine; every task completes exactly when the data size fits the arrays |
| OptSweeper.SweepStep | module6/OptimizationSweeper.java:77-81 | adding one result keeps the results in order, updates the best on a strict improvement only, and keeps track of whether all tasks fit |
| OptSweeper.Sweep | module6/OptimizationSweeper.java:58-90 | one result per configuration in data-major order, the best is the maximum by modern GigaOps, and all tasks completed exactly when every data size fit |
| OptSweeper.DataStepsOverrunArrays | module6/OptimizationSweeper.java:16-40 | as written, the step 500,000 exceeds the 200,000-element arrays, and its reported GigaOps is 2.5 times what the arrays could supply |
| OptSweeper.SweepAsWritten | module6/OptimizationSweeper.java:16-90 | as written, the sweep on 200,000-element arrays records all 30 results, but the result at position 24 has data size 500,000 and not every task completes |
| OptSweeper.Capacity | module6/OptimizationSweeper.java:16-18 | the smallest array length that fits every data step |
| OptSweeper.FittedDataSizeCoversSweep | module6/OptimizationSweeper.java:40 | arrays of 500,000 elements fit every data step |
| OptSweeper.SweepFitted | module6/OptimizationSweeper.java:58-90 | with arrays sized to the data steps, the sweep records 30 results in data-major order, each from its own configuration and timings, keeps the best, and every task completes |
| RiskAnalysis.ScenarioAt | module6/RiskAnalysisServer.java:60-62 | every scenario has a positive request count, a data size within the arrays, pool size 100 and a non-empty name |
| RiskAnalysis.BuildScenarios | module6/RiskAnalysisServer.java:57-64 | nine scenarios; scenario 3d + c pairs data level d with request level c |
| RiskAnalysis.ScenarioMatrixFacts | module6/RiskAnalysisServer.java:52-64 | every scenario has pool 100 and a data size within the arrays; names are distinct; requests grow along a row and data down a column |
| RiskAnalysis.SetupFor | module6/RiskAnalysisServer.java:104-108 | legacy runs a fixed pool of `poolSize` threads with the scalar kernel, modern runs virtual threads with the vector kernel |
| RiskAnalysis.IterationRate | module6/RiskAnalysisServer.java:115-124 | the rate times the duration in seconds is the request count |
| RiskAnalysis.Measure | module6/RiskAnalysisServer.java:101-113 | five iterations with the scenario's setup; the statistics are those of the five rates |
| RiskAnalysis.Speedup | module6/RiskAnalysisServer.java:84 | speedup × legacy mean = modern mean |
| RiskAnalysis.LegacyMeanPositive | module6/RiskAnalysisServer.java:81-84 | with requests and positive durations, the legacy mean is positive, so the speedup is defined |
| JavaText.NatToString | module7/LongRunningGCStability.java:51 | the decimal digits denote the number |
| JavaText.IntToString | module7/LongRunningGCStability.java:51 | non-empty text that starts with a minus sign exactly when the value is negative |
| JavaText.ParseInt | module7/LongRunningGCStability.java:51 | accepted text is non-empty, all digits after its first character, and a negative result comes from a leading minus sign |
| JavaText.ParseIntOfToString | module7/LongRunningGCStability.java:49-55 | every printed integer parses back to itself when it fits an `int`, and is rejected otherwise |
| JavaText.ParseIntRejects | module7/LongRunningGCStability.java:50-54 | empty text, a lone sign, trailing letters and a double sign are rejected |
| JavaText.ParseIntAccepts | module7/LongRunningGCStability.java:51 | "600", "+30" and "-007" parse to 600, 30 and −7 |
| Stability.ArgsConfig | module7/LongRunningGCStability.java:49-61 | no arguments keep the defaults; an unparsable duration keeps the default duration; fewer than three arguments keep the mode |
| Stability.ArgsConfigMeaning | module7/LongRunningGCStability.java:49-61 | with no arguments the defaults stay (600 s, no CSV, "Unknown"); an unparsable duration keeps 600; a printed `int` becomes the duration; args[1] and args[2] set the CSV file and the mode exactly when present |
| Stability.Harness.constructor | module7/LongRunningGCStability.java:36-46 | the defaults, a zero counter, an empty queue, running |
| Stability.Harness.ApplyArgs | module7/LongRunningGCStability.java:49-61 | the settings become those the arguments select; counters and queue untouched |
| Stability.Harness.PerformTask | module7/LongRunningGCStability.java:116-118 | its latency is queued and the request counter goes up by one |
| Stability.Harness.Poll | module7/LongRunningGCStability.java:175 | `poll()` removes and returns the oldest sample, or returns null on an empty queue |
| Stability.Harness.Stop | module7/LongRunningGCStability.java:92-93 | reached only for a non-negative duration, since the sleep before it throws otherwise; `running` becomes false and nothing else changes |
| Stability.WriteHeader | module7/LongRunningGCStability.java:141 | an existing, non-empty CSV file never gets another header |
| Stability.HeaderLineText | module7/LongRunningGCStability.java:144 | the header is the six column names joined by commas |
| Stability.PrintfFieldsMatchHeader | module7/LongRunningGCStability.java:199-200 | the six `printf` arguments line up one for one with the header's columns, the mode last |
| Stability.PrintfFields | module7/LongRunningGCStability.java:199-200 | as many fields as header columns, with the mode last |
| Stability.TotalGcTime | module7/LongRunningGCStability.java:190-193 | the loop sums every collector's collection time |
| Stability.TotalGcTimeBounds | module7/LongRunningGCStability.java:190-193 | known (non-negative) collection times give a total that is non-negative and at least each one |
| Stability.P99Ms | module7/LongRunningGCStability.java:178-183 | 0 ms for an empty interval, and never negative for non-negative samples |
| Stability.P99MsMeaning | module7/LongRunningGCStability.java:178-183 | 0 ms for an empty interval, otherwise one of the interval's samples in ms |
| Stability.DrainSamples | module7/LongRunningGCStability.java:173-177 | the poll loop takes every queued sample, oldest first, and leaves the queue empty |
| Stability.ThroughputsAppend | module7/LongRunningGCStability.java:168-170 | a new row adds its interval's requests to the throughput column's total |
| Stability.Reporter.constructor | module7/LongRunningGCStability.java:131-149 | first deadline one second after the start; the header is written only when the writer opened and the file is new or empty |
| Stability.Reporter.Tick | module7/LongRunningGCStability.java:152-202 | one pass: sleep until the deadline, advance it by 1000 ms, report the elapsed seconds, the request delta, the P99 of exactly the drained samples, heap in MiB and total GC time, append a CSV row only when the writer is open; no sample is lost or counted twice and the throughput column sums to the counter |
| Stability.RunEvents | module7/LongRunningGCStability.java:83-93 | under any interleaving of task completions, reporter wake-ups and the stop, every request is counted once, there is one row per wake-up ordered before the stop, the run stays on exactly until a stop event (none for a negative duration), and the reporter's invariant holds |
| Stability.DeltasTelescope | module7/LongRunningGCStability.java:168-170 | for a non-decreasing counter the per-interval deltas are non-negative and add up to the last reading |
| VectorDemo.WrapAdd | module4/VectorDemo.java:54 | `int` addition equals the exact sum whenever that fits |
| VectorDemo.AddAll | module4/VectorDemo.java:52-56 | element k is a[k] + b[k] with `int` wrap-around, for every index of `a` |
| VectorDemo.ScalarAdd | module4/VectorDemo.java:52-56 | res[i] = a[i] + b[i] for every i < a.length, and res beyond a.length is untouched |
| VectorDemo.VectorAdd | module4/VectorDemo.java:59-107 | the chunk loop and the tail loop produce exactly the scalar result, also when `res` is `a` or `b`; nothing beyond a.length is written |
| VectorDemo.CompareResults | module4/VectorDemo.java:44-48 | `Arrays.equals` on the two results is always true |
| VectorDemo.SmallValuesAddExactly | module4/VectorDemo.java:24-27 | with inputs from `nextInt(100)` no sum wraps: each element is the plain sum, below 200 |
| VectorDemo.AdditionWraps | module4/VectorDemo.java:54 | Integer.MAX_VALUE + 1 is Integer.MIN_VALUE |
| Carrier.LastIndexOf | module3/DeepDiveVirtualThreads.java:56 | −1 exactly when the character is absent; otherwise a position holding it with none after it |
| Carrier.ExtractCarrier | module3/DeepDiveVirtualThreads.java:54-60 | without an '@' the fallback message; otherwise an '@'-free suffix that the last '@' of the input precedes |
| Carrier.CarrierFollowsLastAt | module3/DeepDiveVirtualThreads.java:56-58 | with an '@' present, the input is prefix + "@" + carrier and the carrier holds no '@' |
| Carrier.CarrierOfSplit | module3/DeepDiveVirtualThreads.java:56-58 | for any '@'-free tail after an '@', that tail is the carrier |
| Carrier.TrailingAtGivesEmpty | module3/DeepDiveVirtualThreads.java:58 | a string ending in '@' gives the empty carrier |
| Carrier.NoAtGivesFallback | module3/DeepDiveVirtualThreads.java:57-60 | without '@' the fixed fallback message is returned |
| Carrier.VirtualThreadExample | module3/DeepDiveVirtualThreads.java:25-28 | "VirtualThread[#21]/runnable@ForkJoinPool-1-worker-1" gives "ForkJoinPool-1-worker-1" |
| JitDemo.Term | module1/JITDemo.java:21 | each term lies in [−12, 12] and is Java's remainder of the product when that fits |
| JitDemo.CalcSum | module1/JITDemo.java:20-22 | the sum of n terms lies in [−12n, 12n] |
| JitDemo.PerformCalculation | module1/JITDemo.java:18-24 | the loop's `int` accumulator never wraps and ends at the sum of the 1000 terms |
| JitDemo.NonNegativeInputIsExact | module1/JITDemo.java:20-22 | for non-negative input without overflow the result is Σ (input·j) mod 13, within [0, 12n] |
| JitDemo.MultipleOfThirteenSumsToZero | module1/JITDemo.java:21 | a multiple of 13 whose products do not overflow yields 0 |
| JitDemo.ZeroInputYieldsZero | module1/JITDemo.java:21 | input 0 yields 0 |
| JitDemo.MainInputsNeverOverflow | module1/JITDemo.java:9-10 | every input `main` passes (0..49999) stays clear of overflow, so its result is the exact sum, in [0, 12000] |
| DataModeling.NewUser | module2/DataModeling.java:7-10 | construction succeeds exactly when id ≥ 0, keeps both fields, and otherwise fails with "ID cannot be negative" |
| DataModeling.UsersEqualByValue | module2/DataModeling.java:41-46 | two constructed users are equal exactly when username and id are equal |
| DataModeling.UserExamples | module2/DataModeling.java:41-46 | ("alice", 1001) constructs, twice equal; a negative id is rejected |
| DataModeling.SimpleName | module2/DataModeling.java:65 | a dispute's class has a non-empty simple name |
| DataModeling.HandleTransaction | module2/DataModeling.java:59-67 | Payment prints "Success: Payment Processed", Refund "Refunding: $" and its amount, a dispute "Manual Review: " and its class name |
| DataModeling.HandleTransactionInjective | module2/DataModeling.java:62-66 | different transactions print different lines and equal ones the same |
| DataModeling.FraudClaimIsReviewed | module2/DataModeling.java:35 | a FraudClaim takes the Dispute branch under the name "FraudClaim" |
| ModernData.Area | module2/ModernData.java:20-26 | circle and square areas are never negative, nor is a rectangle's with non-negative sides |
| ModernData.SquareIsRectangle | module2/ModernData.java:23-24 | Square(s) has the area of Rectangle(s, s) |
| ModernData.CircleAreaScales | module2/ModernData.java:22 | doubling the radius quadruples the area |
| ModernData.AreaExamples | module2/ModernData.java:11-13 | Rectangle(4, 6) has area 24, Square(3) has 9, Circle(5) has 25·PI |

## Left out

- Threads, executors, virtual threads, thread pools and the try-with-resources join are not modelled, since they are concurrency.
  - Which executor a burst uses affects only what it observes, and the observations are inputs.
  - The module7 workers and reporter are an interleaving of events (`RunEvents`), not threads.
  - The memory tracker's polling thread is modelled as a loop over the given heap readings.
- Clocks (`nanoTime`, `currentTimeMillis`), heap readings, collector readings and file-system answers are parameters. So are the `Thread.sleep` calls, which only report how long the pass would sleep.
- Random data, warm-up bursts, `System.gc()` and the `consume`/BLACKHOLE writes are not modelled; they do not affect any reported value.
- The kernel in each task is not linked to the reported rates, because each task's result is discarded.
- Console and CSV formatting are not modelled: `printf`, `NumberFormat`, `%.2f`, and `Double.toString` of a refund amount. A CSV row is modelled as its field sequence.
- `float` and `double` rounding is not modelled:
  - the kernels compute exact real sums;
  - the P99 index `(int)(n * 0.99)` is taken as floor(99n/100), treating the double product as exact;
  - `Math.PI` is its 16-digit decimal.
- `Math.sqrt` is not computed. `Statistics.IsStdDev` states what the standard deviation is (the non-negative root of the variance), and the statistics record holds the variance.
- `AtomicLong` and `long` overflow are not modelled; counters and times are unbounded integers.
- Interrupt handling is not modelled: the reporter's `return` on interrupt and the tracker's and worker's re-interrupt.
- Stability.Harness.Stop: requires a non-negative duration. A negative duration parses, but `Thread.sleep` then throws in `main`, so `running` is never cleared and the non-daemon workers never end; `Stability.RunEvents` accordingly admits no stop event for it, and this endless run is not modelled further.
- Stability.Reporter.Tick: there is no final drain after `running` becomes false, because `runReporter` has none. Its loop simply ends, and the last partial interval is not reported.
- `getCollectionTime()` returns −1 for an unsupported collector. Such values are summed as reported; `Stability.TotalGcTimeBounds` requires them all to be known.
- JavaText.ParseInt: accepts only ASCII digits, while `Integer.parseInt` also accepts other Unicode decimal digits.
- Rates.Rate: requires a positive duration, because Java would yield Infinity or NaN for a zero duration. `GcSweeper.RunBurst`, through `GcSweeper.Observable` also `GcSweeper.Measure`, `GcSweeper.MeasuredRuns`, `GcSweeper.RowFor`, `GcSweeper.MeasureRow`, `GcSweeper.Sweep` and `GcSweeper.SweepMain`, and `RiskAnalysis.IterationRate`, `RiskAnalysis.Measure`, and through `OptSweeper.Timed` also `OptSweeper.MakeResult`, `OptSweeper.MeasureConfiguration`, `OptSweeper.Sweep`, `OptSweeper.SweepFitted` and `OptSweeper.SweepAsWritten`, inherit this requirement.
- Statistics.StatsOf: requires at least one value, because the variance of an empty list is 0.0/0, which is NaN (the average itself is 0.0, as `Statistics.Mean` returns). Every caller passes five runs; the same holds for `Statistics.Variance` and `GcSweeper.CalcStats`.
- RiskAnalysis.Speedup: requires a non-zero legacy mean, where Java would divide by zero in `double`. `RiskAnalysis.LegacyMeanPositive` shows the mean is positive in every scenario.
- Kernels.CalculateScalar: requires `length` within both arrays, where Java throws `ArrayIndexOutOfBoundsException`. That exception path is modelled by `OptSweeper.RunTask`; the same applies to `Kernels.CalculateVector`.
- VectorDemo.VectorAdd: requires `b` and `res` to be at least as long as `a`, where Java throws an index exception; the same applies to `VectorDemo.ScalarAdd`.
- `DeepDiveVirtualThreads.main` and its concurrent set of carrier names are not modelled, as concurrency; only `extractCarrier` is modelled.
- The timing printout of `JITDemo.main`, and the record `toString` of `User` in `DataModeling.main`, are not modelled.
- A `null` username in `DataModeling` is not modelled; strings are never null here.

## Findings

| source | as written | input that shows it | evidently intended | confidence | as-written member | corrected member |
|---|---|---|---|---|---|---|
| module6/OptimizationSweeper.java:40 | `dataSteps` ends with 500,000, but `DATA_A` and `DATA_B` hold `MAX_DATA_SIZE` = 200,000 floats (lines 16-18) | data size 500,000 at any concurrency: every task reads past index 199,999 and throws inside `executor.submit`. The exception stays in the discarded `Future`, so `runBurst` still reports a rate, and `calculateGigaOps` credits 2 · 500,000 operations per request that were never performed. | arrays at least as long as the largest data step (500,000), so every measured task does the work it is credited with | not executed | OptSweeper.SweepAsWritten | OptSweeper.SweepFitted |
