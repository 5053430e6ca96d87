# IIO occupancy collector and CPU-utilisation aggregator, in Dafny

This project models two small measurement utilities.

The first is the IIO occupancy collector, `utils/collect_iio_occ.c`. It arms
an IRP occupancy counter of one IIO stack through a model-specific register
(MSR). It then samples that counter together with the time-stamp counter
(TSC), forever. From each pair of samples it derives:

- the elapsed time in nanoseconds (TSC ticks times 10/33, for a 3.3 GHz TSC);
- the average occupancy over the interval;
- two exponentially weighted moving averages of that occupancy, a short-term
  one (weight 8) and a long-term one (weight 256), updated only when the
  average is above a noise floor of 10.

Every iteration records these values in a ring log of 100000 entries. On
SIGINT the log is dumped row by row.

The second is `utils/cpu_util.py`. It reads a `sar`-style CPU report and sums
`100 - idle` and a sample count per CPU. It turns each sum into that CPU's
mean, and reports the mean of those means.

Layout:

- `machine.dfy` (module `Machine`) holds the machine-level pieces:
  - unsigned 64- and 32-bit wrap-around arithmetic;
  - how `rdtscp` assembles a 64-bit value from EAX and EDX;
  - the core-number mask;
  - the MSR addresses of the control and counter registers of a stack.
- `occupancy.dfy` (module `Occupancy`) holds the rate estimator and the
  dual-rate smoother as functions on an `OccState` value. It also holds the
  as-written variant that exhibits the two findings below.
- `iio_log.dfy` (module `IioLog`) holds the ring log. `Replay` is its
  specification: the log after a run of appends.
- `collector.dfy` (module `Collector`) is the program itself, as a class.
  - Its fields are the C globals.
  - The log is an `array`.
  - Each C function is a method.
  - Every method is proved against the specification functions above.
  - A ghost history (`base`, `baseIndex`, `appended`) ties the array to
    `Replay`.
- `cpu_util.dfy` (module `CpuUtil`) holds the script.
  - `Samples` is the specification of the first loop: the parsed samples,
    or the failing `assert`.
  - `Accumulate` is that loop over the two dictionaries.
  - `Average` is the second loop.
  - `CpuUtilReport` is the whole script.
  - The lemmas prove that the result is the mean of the per-CPU means.

The machine is modelled as follows:

- Unsigned C integers are `int` subset types. Wrap-around is written out
  where it can happen.
- C `float` values are modelled as `real`.
- The `(uint64_t)` casts are truncation (`Trunc`).
- The TSC registers and the counter value read from the MSR device are
  method parameters.
- Every MSR read, MSR write and TSC read is appended, in program order, to
  the ghost trace `accesses`.
- Python's dictionaries are `map`s. A `seq` of keys records their insertion
  order.
- Python's `int()` and `float()` are function parameters.

Two defects of `update_occ` are recorded under "Findings". The collector
uses the evidently intended step, `Occupancy.OccStep`, and the code as
written is kept as `Occupancy.UpdateOccAsWritten`. The intent is read from
the source itself:

- The guard at `utils/collect_iio_occ.c:161` is there to skip intervals
  that cannot be measured, so it should also skip the 1 ns interval, whose
  divisor is zero.
- The long-term recurrence at lines 170-173 updates its accumulator from
  itself. The commented-out integer recurrence at line 176 does the same for
  the short-term average. Both show that the short-term average was meant
  to follow its own accumulator.

## Model

| member | source | states |
|---|---|---|
| Machine.Sub64 | utils/collect_iio_occ.c:160 | `uint64_t` subtraction: the result plus the subtrahend is the minuend modulo 2^64; it is the plain difference without a borrow and 2^64 minus the shortfall with one |
| Machine.Mul64 | utils/collect_iio_occ.c:160 | `uint64_t` multiplication: the result is the product when it fits and is congruent to it modulo 2^64 always |
| Machine.Inc32 | utils/collect_iio_occ.c:125 | `++` on a `uint32_t` adds one below 2^32-1 and wraps 2^32-1 to 0 |
| Machine.Rdtsc | utils/collect_iio_occ.c:81-87 | the TSC value has EAX in its low 32 bits and EDX in its high 32 bits |
| Machine.CoreNumber | utils/collect_iio_occ.c:89-95 | the core number is ECX modulo 4096, so it lies in 0..4095 |
| Machine.CtlAddress | utils/collect_iio_occ.c:130 | the control register of stack s is at 0x0A5B + 0x20·s (modulo 2^64 for negative s), and every such address is 0x1B modulo 0x20 |
| Machine.CtrAddress | utils/collect_iio_occ.c:137 | the counter register of stack s is at 0x0A59 + 0x20·s (modulo 2^64 for negative s), and every such address is 0x19 modulo 0x20 |
| Machine.CounterBelowControl | utils/collect_iio_occ.c:130-137 | the counter a stack samples sits two addresses below the control register that was armed for it |
| Machine.AddressesDistinct | utils/collect_iio_occ.c:130-137 | distinct stacks use distinct control and counter registers, and no stack's counter is any stack's control register |
| Occupancy.TimeDeltaNs | utils/collect_iio_occ.c:160 | the elapsed nanoseconds are the floor of one thirty-third of ten times the wrapped tick difference |
| Occupancy.EqualTscGivesZeroDelta | utils/collect_iio_occ.c:160 | two equal TSC samples give zero elapsed time |
| Occupancy.TimeDeltaOfTicks | utils/collect_iio_occ.c:160-161 | without wrap-around the elapsed time is ticks·10/33; it is 0 exactly for at most 3 ticks and 1 exactly for 4 to 6 ticks |
| Occupancy.AvgOcc | utils/collect_iio_occ.c:162 | the average occupancy never exceeds the wrapped occupancy difference |
| Occupancy.AvgOccRoundsDown | utils/collect_iio_occ.c:162 | the average is the occupancy difference divided by half the elapsed time, rounded down: avg·(td/2) ≤ Δ < (avg+1)·(td/2) |
| Occupancy.Ewma | utils/collect_iio_occ.c:164-173 | the new weighted average always lies between the old accumulator and the new sample |
| Occupancy.EwmaMirror | utils/collect_iio_occ.c:164-173 | one weighted step commutes with negating both the accumulator and the sample |
| Occupancy.EwmaDistance | utils/collect_iio_occ.c:164-173 | one weighted step with weight w shrinks the distance to the sample by exactly the factor (w-1)/w |
| Occupancy.Trunc | utils/collect_iio_occ.c:168 | the `(uint64_t)` cast of a non-negative float in range is its floor |
| Occupancy.Smooth | utils/collect_iio_occ.c:164-174 | smoothing keeps both float accumulators in the `uint64_t` range, with the integer averages their truncations |
| Occupancy.OccStep | utils/collect_iio_occ.c:158-180 | one rate/smoothing step keeps the state consistent: accumulators in range, integer averages their truncations |
| Occupancy.OccStepSpec | utils/collect_iio_occ.c:158-177 | the step always records the elapsed time. With no usable interval nothing else changes. Otherwise it records the average occupancy. At or below the noise floor the smoothed values are kept. Above it both accumulators take one weighted step from their own previous values, and the integer averages are their truncations |
| Occupancy.UpdateOccAsWritten | utils/collect_iio_occ.c:158-180 | the code as written divides by zero exactly when the elapsed time is 1 ns; otherwise it records the elapsed time and average and smooths both values above the noise floor, the short-term one from the long-term accumulator |
| Occupancy.AsWrittenAgreesAwayFromDefects | utils/collect_iio_occ.c:161-173 | away from a 1 ns interval and while the two accumulators are equal, the code as written and the corrected step agree |
| Occupancy.DivisionByZeroWitness | utils/collect_iio_occ.c:160-162 | TSC samples 0 and 4 give a 1 ns interval, on which the code as written divides by zero and the corrected step only records the interval |
| Occupancy.AsWrittenShortIgnoresOwnAccumulator | utils/collect_iio_occ.c:164-167 | in the code as written the new short-term average does not depend on the previous short-term accumulator at all |
| Occupancy.ShortTermScenario | utils/collect_iio_occ.c:164-174 | from a zero state with two intervals at average occupancy 80, the corrected short-term average goes 10 then 18, while the code as written stays at 10 |
| Occupancy.RepeatMonotone | utils/collect_iio_occ.c:164-173 | repeated weighted steps towards a fixed sample from below rise monotonically and never overshoot it |
| Occupancy.RepeatMirror | utils/collect_iio_occ.c:164-173 | negating the start and the sample negates every repeated weighted step, so each property from below holds mirrored from above |
| Occupancy.RepeatMonotoneFromAbove | utils/collect_iio_occ.c:164-173 | repeated weighted steps towards a fixed sample from above fall monotonically and never undershoot it |
| Occupancy.RepeatBelow | utils/collect_iio_occ.c:164-173 | started strictly below a constant sample, a moving average of weight at least 2 never reaches it |
| Occupancy.ShortConvergesFaster | utils/collect_iio_occ.c:164-173 | after any number of steps towards the same sample from the same start below it, the weight-8 average is at least as close to it as the weight-256 average, and strictly closer after one step or more from a start strictly below |
| Occupancy.ShortConvergesFasterFromAbove | utils/collect_iio_occ.c:164-173 | the same from a start above the sample: the weight-8 average stays at least as close to it as the weight-256 average, and strictly closer after one step or more from a start strictly above |
| Occupancy.Run | utils/collect_iio_occ.c:261-263 | applying the step to each interval in turn keeps the state consistent |
| Occupancy.SteadyRunRepeats | utils/collect_iio_occ.c:158-177 | over intervals whose average occupancy is a constant above the noise floor, the short and long accumulators after the run are exactly n weighted steps (weights 8 and 256) from their starting values |
| Occupancy.SteadyShortCloser | utils/collect_iio_occ.c:164-173 | fed a constant average above the noise floor from equal accumulators, whether they start below or above it, the short-term average is never farther from it than the long-term one, and strictly closer after at least one interval unless they started at it |
| IioLog.Slot | utils/collect_iio_occ.c:119 | the slot of a log index is within the log, and equals the index while the index is below the log size |
| IioLog.NextSlot | utils/collect_iio_occ.c:119-125 | incrementing the index advances the slot by one around the ring, except when the 32-bit index wraps: slot 67295 is then followed by slot 0 |
| IioLog.Replay | utils/collect_iio_occ.c:118-125 | replaying appends keeps the log at exactly 100000 entries |
| IioLog.ReplayAppend | utils/collect_iio_occ.c:118-125 | one more append overwrites exactly the slot of the next index and nothing else |
| IioLog.IndexStep | utils/collect_iio_occ.c:125 | the index after n appends and one more increment is the start index plus n+1 modulo 2^32 |
| IioLog.LatestWins | utils/collect_iio_occ.c:118-125 | while the 32-bit index does not wrap, each of the last 100000 appended entries survives in its own slot |
| IioLog.Untouched | utils/collect_iio_occ.c:118-125 | while the 32-bit index does not wrap, a slot that no append addressed keeps its earlier entry |
| IioLog.SentinelMarksUnwritten | utils/collect_iio_occ.c:186-191 | on a ring initialised to sentinels, with entries from real cores (0 .. num_lcores-1) and no index wrap, a slot holds the sentinel exactly when no append selected it: the sentinel marks "never written" |
| IioLog.RingWrap | utils/collect_iio_occ.c:118-125 | after 100000 + j appends from index 0, the first j slots hold the newest entries and the rest hold entries from the first lap |
| Collector.Collector.constructor | utils/collect_iio_occ.c:47-71 | every global starts at zero, and the log is all zero entries with an empty history and no hardware access yet |
| Collector.Collector.ArmControlRegister | utils/collect_iio_occ.c:128-133 | arming performs exactly one access, a write of `IRP_OCC_VAL` to the control register of the stack on the given core, and leaves that address in `msr_num` |
| Collector.Collector.MainInit | utils/collect_iio_occ.c:182-195 | initialisation fills every log slot with the sentinel entry, then arms the control register as its only hardware access, and leaves every other global as it was |
| Collector.Collector.Startup | utils/collect_iio_occ.c:258-259 | start-up leaves the log all sentinels with the index unchanged and `msr_num` at the control register, and its hardware accesses are the same control-register write twice |
| Collector.Collector.SampleIioOccCounter | utils/collect_iio_occ.c:135-142 | sampling performs one read, of the counter register of the stack, stores the value in `cum_occ_sample`, and shifts the current cumulative occupancy into the previous one |
| Collector.Collector.SampleTimeCounter | utils/collect_iio_occ.c:144-148 | sampling time performs one TSC read, stores it in `tsc_sample`, and shifts the current TSC into the previous one |
| Collector.Collector.SampleCounters | utils/collect_iio_occ.c:150-156 | a combined sample's hardware accesses are the counter read followed by the TSC read, in that order; `msr_num`, `cum_occ_sample` and `tsc_sample` hold the counter address and the two fresh values, and both current/previous pairs are shifted |
| Collector.Collector.UpdateOcc | utils/collect_iio_occ.c:158-180 | updating the globals performs exactly the rate/smoothing step `OccStep` on the sampled pairs, and keeps the collector's invariant |
| Collector.Collector.SmoothAverages | utils/collect_iio_occ.c:164-174 | the corrected smoothing recurrence: the four smoothed globals become exactly `Smooth` of the previous ones with the latest average, where the short-term average steps from its own accumulator rather than from the long-term one as line 165 has it |
| Collector.Collector.Entry | utils/collect_iio_occ.c:119-124 | the recorded entry is tagged with the current core and TSC, and in a consistent state its two smoothed averages are the truncations of the float accumulators |
| Collector.Collector.UpdateLog | utils/collect_iio_occ.c:118-126 | logging writes the current values into the slot of the index only, increments the index with 32-bit wrap-around, and extends the recorded history, so the log stays `Replay` of that history |
| Collector.Collector.MainExit | utils/collect_iio_occ.c:197-209 | the dump emits one row per slot, in slot order, and each row is the entry that replaying the recorded history leaves in that slot |
| Collector.Collector.Iterate | utils/collect_iio_occ.c:261-266 | one loop iteration reads the counter and then the TSC, performs `OccStep`, logs the result into the next slot and counts the iteration, all with 32-bit wrap-around; `msr_num`, `cum_occ_sample` and `tsc_sample` end as the counter address and the two fresh samples |
| CpuUtil.TrimStart | utils/cpu_util.py:12 | trimming leading whitespace leaves a string that is empty or starts with a non-space |
| CpuUtil.TrimStartDrops | utils/cpu_util.py:12 | trimming removes exactly a prefix, made only of whitespace |
| CpuUtil.Word | utils/cpu_util.py:12 | the first word of a string that starts with a non-space is non-empty |
| CpuUtil.WordPrefix | utils/cpu_util.py:12 | the first word is a prefix of the string, has no whitespace, and is followed by whitespace or the end of the string |
| CpuUtil.Split | utils/cpu_util.py:12 | `str.split()` yields only non-empty words without whitespace |
| CpuUtil.SplitSkipsSpace | utils/cpu_util.py:12 | leading whitespace does not change `str.split()` |
| CpuUtil.SplitJoin | utils/cpu_util.py:12 | splitting the words joined by single spaces gives back those words |
| CpuUtil.ContainsCpu | utils/cpu_util.py:11 | the test `"CPU" in line` holds exactly when some suffix of the line begins with "CPU" |
| CpuUtil.Classify | utils/cpu_util.py:11-15 | a line is skipped exactly when it contains "CPU", rejected exactly when it otherwise does not split into 8 fields, and otherwise accepted with the parsed second and eighth fields, both words |
| CpuUtil.ClassifyFields | utils/cpu_util.py:11-15 | a line made of 8 words separated by single spaces and without "CPU" is accepted as the sample of its second and eighth word |
| CpuUtil.Samples | utils/cpu_util.py:9-15 | when reading fails, the failing line exists and is a malformed data line; when it succeeds there are at most as many samples as lines |
| CpuUtil.SamplesOutcome | utils/cpu_util.py:9-15 | when reading fails, no line before the failing one is malformed; when it succeeds, no line is malformed |
| CpuUtil.SamplesStep | utils/cpu_util.py:10-15 | reading one more line skips it, fails on it or appends its sample, as the line dictates |
| CpuUtil.FailurePersists | utils/cpu_util.py:13 | once the `assert` has failed on a prefix of the file, the whole run fails at that same line |
| CpuUtil.TallyStep | utils/cpu_util.py:16-17 | a sample adds one to its CPU's count and `100 - idle` to its CPU's sum, and changes no other CPU |
| CpuUtil.Unseen | utils/cpu_util.py:6-7 | a CPU with no samples has count and sum zero, as a `defaultdict(float)` reads |
| CpuUtil.Cpus | utils/cpu_util.py:16-17 | the dictionary keys in insertion order contain every sampled CPU, once each, each with at least one sample |
| CpuUtil.TallyPreserved | utils/cpu_util.py:16-17 | the two dictionary updates keep both dictionaries equal to the per-CPU sums and counts of the samples read so far |
| CpuUtil.SkipLine | utils/cpu_util.py:11 | a line containing "CPU" changes nothing |
| CpuUtil.RejectLine | utils/cpu_util.py:12-13 | a data line without 8 fields makes the whole run fail at that line |
| CpuUtil.AcceptLine | utils/cpu_util.py:12-17 | a data line with 8 fields adds the sample of field 1 and field 7, and the dictionaries follow it |
| CpuUtil.Accumulate | utils/cpu_util.py:9-17 | the first loop fails exactly when the reading specification does, at the same line, and otherwise ends with both dictionaries holding the per-CPU sums and counts |
| CpuUtil.MeansStep | utils/cpu_util.py:21-24 | dividing one more CPU's sum by its count extends the set of CPUs already turned into means |
| CpuUtil.TotalsStep | utils/cpu_util.py:21-27 | one more CPU adds its mean to the total and one to the CPU count exactly when its count is non-zero |
| CpuUtil.Average | utils/cpu_util.py:19-27 | the second loop turns every sum with a non-zero count into its mean, keeps the keys, and returns the sum of those means and their number |
| CpuUtil.MeansDone | utils/cpu_util.py:21-24 | after the loop every CPU's entry is its mean, or its sum where its count is zero |
| CpuUtil.SecondLoopSumsMeans | utils/cpu_util.py:21-27 | on tallied dictionaries the running total is the sum of the per-CPU means and every visited CPU is counted |
| CpuUtil.MeansOfTallies | utils/cpu_util.py:21-24 | on tallied dictionaries, the keys are exactly the sampled CPUs and every entry becomes sum/count of that CPU |
| CpuUtil.AverageOfTallies | utils/cpu_util.py:19-31 | the number of CPUs is zero exactly when there were no samples; otherwise the printed average is the mean of the per-CPU means |
| CpuUtil.CpuUtilReport | utils/cpu_util.py:9-31 | the script fails exactly at the first malformed data line. Otherwise it reports, for exactly the sampled CPUs, each CPU's count and mean. Its average is empty exactly when there were no samples, and is otherwise the mean of the per-CPU means |
| CpuUtil.SumBounded | utils/cpu_util.py:16 | with idle percentages in 0..100, each CPU's sum lies between 0 and 100 times its count |
| CpuUtil.MeanSumBounded | utils/cpu_util.py:24-26 | with idle percentages in 0..100, the total of the per-CPU means lies between 0 and 100 times the number of CPUs |
| CpuUtil.AverageBounded | utils/cpu_util.py:31 | with idle percentages in 0..100, the reported average utilisation is between 0 and 100 |

## Left out

- MSR access (`rdmsr_userspace`, `wrmsr_userspace`, `utils/collect_iio_occ.c:97-116`) is device I/O. A read's value is a parameter; reads and writes are recorded in the ghost trace `accesses`. Short reads and writes, which end the program, are not modelled.
- `rdtsc` and `rdtscp` are inline assembly. The EAX and EDX values (and ECX for `get_core_number`) are parameters. The unused `rdtsc` variant assembles its value the same way as `Machine.Rdtsc`.
- IEEE single-precision rounding: the averages are `real`s, so the model computes the exact weighted mean.
- Occupancy.Trunc: only casts of values inside the `uint64_t` range are modelled. `Occupancy.Consistent` keeps the accumulators there, because they are weighted means of `uint64_t` values.
- `main` (`utils/collect_iio_occ.c:217-257`): the signal handler installation, opening `iio.csv` and the MSR device files, argument count checking and `atoi` are I/O and are not modelled. The stack number is a parameter.
- Machine.CtlAddress and Machine.CtrAddress require the stack number to lie in ±2^26, so that `0x20 * stack` does not overflow a C `int`, which would be undefined behaviour.
- The unbounded `while (1)` loop is modelled as one iteration, `Collector.Collector.Iterate`. The properties of many iterations are stated on `IioLog.Replay` and `Occupancy.Run`.
- `catch_function` (SIGINT) is asynchronous, and `MainExit` models what it dumps. The header line and `fprintf` formatting are left out: each row is a `Row(index, entry)` value.
- Globals the core never uses (`prev_cum_frc`, `latest_avg_pcie_bw`, `smoothed_avg_pcie_bw_f` and so on) and `LOG_FREQUENCY`/`LOG_PRINT_FREQUENCY` are not modelled.
- cpu_util.py: `sys.argv`, opening the file and printing are I/O. The file is a sequence of lines, and the printed values are a `Report` value.
- cpu_util.py: `int()` and `float()` are function parameters, so a `ValueError` they raise is not modelled.
- cpu_util.py: the `in` test on a line is a substring test. `IsSpace` is the character set of Python's `str.isspace`.
- cpu_util.py: floating-point summation order and rounding are not modelled. Sums are exact `real`s.
- cpu_util.py: the second loop's read of `num_samples[cpu]` could insert a key into a `defaultdict`. The model reads with `Lookup` instead, and proves that the two dictionaries always have the same keys, so no key would be inserted.

## Findings

| source | as written | input that shows it | evidently intended | confidence | as-written member | corrected member |
|---|---|---|---|---|---|---|
| utils/collect_iio_occ.c:161-162 | the guard `latest_time_delta_ns > 0` admits a 1 ns interval, for which the divisor `latest_time_delta_ns >> 1` is 0 | consecutive TSC samples 0 and 4 (4 to 6 ticks apart): `td_ns` = 40/33 = 1, then division by 0 | skip the rate update whenever the divisor is zero, as the zero-interval guard intends | not executed | Occupancy.DivisionByZeroWitness | Occupancy.OccStep |
| utils/collect_iio_occ.c:164-167 | the short-term average is computed from `smoothed_avg_occ_longterm_f`, so its own history is ignored | from a zero state, two intervals of 66 ticks with average occupancy 80: the short-term average stays 10 instead of rising to 18 | the short-term accumulator is updated from its own previous value, as the long-term one is on lines 170-173 | not executed | Occupancy.ShortTermScenario | Occupancy.OccStepSpec |
