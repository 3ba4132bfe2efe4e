# CoreBurner core, modelled in Dafny

CoreBurner is a Linux CPU stress tool. It parses a command line, checks the
machine, and starts one worker thread per CPU, or a single worker. Each
worker is pinned to a CPU. It burns a target share of every 100 ms
control period and sleeps for the rest. Once per reporting interval the
main thread reads per-core tick counters from `/proc/stat` and computes
utilisation. It also logs how many operations each worker has done since
the last line. It stops when the CPU temperature reaches a threshold.

This project models the deterministic core of `coreburner.c` and proves
properties of that model:

- `uint64.dfy` (`UInt64`): `uint64_t` addition and subtraction modulo 2^64,
  with the lemmas the tick sums and the counter deltas rely on.
- `ctext.dfy` (`CText`): the C library behaviour the parsers depend on:
  - `strcasecmp` equality;
  - a decimal `strtod`, `atof` and `atoi`;
  - `%d` printing;
  - C `round`, which rounds halves away from zero.
- `config.dfy` (`Config`): `parse_duration_seconds`, `parse_type` and
  `parse_args`. `parse_args` is specified by a reference definition of its
  dispatch loop, followed by the acceptance checks.
- `environment.dfy` (`Environment`):
  - the AVX capability test. It needs CPUID leaf 1, ECX bits 27 (OSXSAVE)
    and 28 (AVX), and XCR0 bits 1 and 2 (SSE and AVX state), as section 14.3
    of the Intel 64 and IA-32 Architectures Software Developer's Manual,
    Volume 1, describes;
  - `validate_environment`, with its refusals in their order;
  - `main`'s round-robin pinning of worker descriptors.
- `thermal.dfy` (`Thermal`):
  - the order in which temperature-sensor paths are tried;
  - the millidegree scaling of the reading;
  - the stop-on-threshold test.
- `procstat.dfy` (`ProcStat`): `read_proc_stat`'s record loop. It fills two
  arrays in place (`modifies`) and counts every accepted line.
- `interval.dfy` (`Interval`): `main`'s per-interval utilisation update and
  per-thread operation delta. Both rewrite their "previous" arrays in place.
- `worker.dfy` (`Worker`): the worker's duty cycle:
  - the budget split;
  - the busy loop, driven by a sequence of clock readings and stop-flag
    values;
  - the sleep request.

Files, clocks, CPUID/XGETBV, `access` and `get_nprocs` are all parameters:

- `read_proc_stat` receives the lines of the file as text together with the
  fields `sscanf` assigned. `None` stands for a file that could not be
  opened.
- `find_temperature_input_path` receives the readability test as a predicate.
- `read_temperature` receives the path and what `fscanf("%ld")` read.
- `validate_environment` receives whether `/proc/stat` is readable,
  `get_nprocs()`, and the CPU registers.
- The busy loop receives the `clock_gettime` readings and the values of the
  stop flag as it sees them.

Three facts about `coreburner.c` shape the model:

- The utilisation delta is not clamped. `Interval.UpdateUtilisation` follows
  the code as written, and Findings gives the inputs where that goes wrong.
- `read_temperature` applies no plausibility range. Any reading is used;
  only a missing path, a failed open or a failed `fscanf` give no value.
- The MIXED workload is not a weighted random choice. Each busy-loop
  iteration runs the integer, float and vector kernels in that order and
  counts one operation (`Worker.Units`, `Worker.MixedRunsEveryUnit`).

## Model

| member | source | states |
|---|---|---|
| UInt64.Wrap | coreburner.c:83-85 | a value already in range is stored unchanged |
| UInt64.Sub | coreburner.c:495-496 | a `uint64_t` difference is the plain difference when no borrow occurs, and 2^64 more otherwise |
| UInt64.WrapOfSum | coreburner.c:83-85 | storing an intermediate sum in a `uint64_t` does not change the final stored sum |
| UInt64.AddWrapped | coreburner.c:84 | adding to a stored sum is adding to the mathematical sum, then storing |
| UInt64.AddChain | coreburner.c:84 | adding six fields one at a time in `uint64_t` gives the mathematical sum reduced modulo 2^64 |
| UInt64.AddSubCancel | coreburner.c:524-525 | adding the wrapped delta back to the previous counter value restores the current one |
| UInt64.SubOfWrapped | coreburner.c:524 | a counter that advanced by fewer than 2^64 between two readings has a wrapped delta equal to the true number of increments, even across a wrap-around |
| CText.ToLower | coreburner.c:282 | ASCII capitals move down by 32; every other character is unchanged |
| CText.Lowered | coreburner.c:282 | the string with each character lowered, position by position |
| CText.CaseEqual | coreburner.c:281-283 | `strcasecmp(a, b) == 0` holds exactly when both strings are equal once lowered |
| CText.SkipSpaces | coreburner.c:59 | the leading white space `strtod` skips: a suffix of the input that starts with a non-space |
| CText.ScanDecimal | coreburner.c:59-60 | no number converts (`end == s`) exactly when, after white space and an optional sign, neither a digit nor a point followed by a digit comes next |
| CText.DecimalRest | coreburner.c:59-60 | when a number converts, the end pointer has moved past at least one character and what remains is a suffix of the input |
| CText.ScanUnsignedDecimal | coreburner.c:59 | the unsigned part converts exactly when it starts with a digit or a point and a digit; its value is not negative |
| CText.ScanDigits | coreburner.c:59 | a run of digits converts exactly when the input starts with a digit |
| CText.ScanFraction | coreburner.c:59 | fraction digits convert exactly when the input starts with a digit, and their value lies in [0, 1) |
| CText.PointThenFraction | coreburner.c:59 | digits, a point and fraction digits read as the whole part plus the fraction, with the rest left over |
| CText.PointThenNoFraction | coreburner.c:59 | digits and a point with no digit after it: the point is consumed and the value is the whole part |
| CText.UnsignedWithPoint | coreburner.c:59 | any spelling with a point and at least one digit reads as its decimal value |
| CText.UnsignedWithoutPoint | coreburner.c:59 | digits followed by neither a digit nor a point read as their value |
| CText.ScanDecimalOfSpelling | coreburner.c:59 | blanks, an optional sign, digits, a point and digits read as that signed decimal value, with the rest left over |
| CText.ScanDecimalOfWholeSpelling | coreburner.c:59 | blanks, an optional sign and digits not followed by a point read as that signed whole number |
| CText.SignedOf | coreburner.c:59 | a sign in front of an unsigned number negates it exactly for a minus |
| CText.ScanInteger | coreburner.c:309 | `atoi` finds a number exactly when, after white space and an optional sign, a digit comes next |
| CText.IntegerRest | coreburner.c:309 | when `atoi` finds a number, what it leaves unread is a strict suffix of the input |
| CText.DigitsOf | coreburner.c:309 | digits followed by a non-digit read as their value, with the rest left over |
| CText.ScanIntegerOfSpelling | coreburner.c:309 | blanks, an optional sign and digits followed by a non-digit read as that signed integer |
| CText.AtoF | coreburner.c:306 | `atof` is the converted value, or 0.0 when nothing converts |
| CText.AtoI | coreburner.c:309 | `atoi` is the converted value, or 0 when nothing converts |
| CText.NatToStringValue | coreburner.c:59 | the decimal spelling of a number has that number as its digit value |
| CText.NatToStringScans | coreburner.c:59-66 | a printed number followed by neither a digit nor a point reads back as that number under both scans, with the rest left over |
| CText.Round | coreburner.c:62-64 | C `round`: within 0.5 of its argument, halves away from zero, not negative for a non-negative argument, exact on integers |
| Config.AfterBlanks | coreburner.c:61 | after the skipped ' ' characters comes the end or a character that is not ' ' |
| Config.UnitAfter | coreburner.c:61-65 | seconds exactly for the end or s/S after the blanks, minutes exactly for m/M, hours exactly for h/H, and a rejection exactly for any other character |
| Config.InSecondsIsProduct | coreburner.c:62-64 | the three conversions multiply the value by 1, 60 or 3600 |
| Config.ParseDuration | coreburner.c:55-66 | -1 for a null string, for a string with no number and for a wrong unit character; otherwise within 0.5 of the value in seconds, and not negative when that value is not |
| Config.ScaleBySuffix | coreburner.c:60-65 | the same after the scan: -1 for no number or a wrong unit, otherwise the rounded value in seconds |
| Config.DurationWithoutNumber | coreburner.c:59-60 | a string with no number after white space and a sign is -1 |
| Config.DurationOfPrinted | coreburner.c:55-66 | a printed whole number, blanks, a unit letter and any tail parse to the number times 1, 60 or 3600 |
| Config.DurationRejectsBadUnit | coreburner.c:61-65 | a printed whole number followed by blanks and a character that is no unit letter is -1 |
| Config.RejectedDurations | coreburner.c:61-65 | "5x", "5 x", and 5 followed by a tab and "m", are -1: only ' ' is skipped and only s, m and h name units |
| Config.PrintedThen | coreburner.c:59-65 | after a printed whole number, the unit character alone decides between -1 and the number in seconds |
| Config.DurationOfBareNumber | coreburner.c:62 | a bare whole number is that many seconds |
| Config.WholeDuration | coreburner.c:62-64 | a scan that reads a whole number and a unit gives that number times the unit's seconds |
| Config.WholeInSeconds | coreburner.c:62-64 | rounding a whole number of units in seconds is exact |
| Config.BlanksThen | coreburner.c:61 | the ' ' characters are skipped up to the first other character |
| Config.ParseType | coreburner.c:285-291 | INT exactly for a missing string or any case of "INT"; FLOAT and AVX exactly for their names in any case; everything else is MIXED |
| Config.ParseTypeOfName | coreburner.c:285-291 | every spelling, in any letter case, of a printed type name parses back to that type |
| Config.Defaults | coreburner.c:299-302 | the initial options have no mode, so they alone are never accepted; both switches are off, there is no log path, and the log interval is positive |
| Config.ApplyValueFlag | coreburner.c:305-314 | exactly the nine value flags consume a following argument, and none of them touches `--check` or `--log-append` |
| Config.ValueFlagStores | coreburner.c:305-314 | each value flag stores its converted value in its own field (`--log-interval` stores 1 for a value that is not positive) and leaves every other field as it was |
| Config.ApplySwitch | coreburner.c:312-315 | exactly `--check` and `--log-append` consume no value; each sets its own flag and changes nothing else |
| Config.Accepted | coreburner.c:320-326 | the seven checks after the loop hold exactly when the mode is single or multi in any case, the target is 10 to 100, the duration is positive and within the limit, and the thread limit is 1 to 256; the `util < 0` check is subsumed |
| Config.ParseArgs | coreburner.c:293-328 | returns 0 or -1; the options are those the reference dispatch loop leaves; 0 exactly when that loop consumed every argument and the seven acceptance checks pass |
| Config.ValueFlagStep | coreburner.c:305-314 | one turn of the loop at a value flag with a value after it consumes both |
| Config.SwitchStep | coreburner.c:312-315 | one turn of the loop at a switch consumes it alone |
| Config.HaltStep | coreburner.c:316-317 | the loop stops at an argument that is neither a switch nor a value flag with a value after it |
| Config.ScanAppend | coreburner.c:304-318 | a fully consumed argument prefix can be followed by anything; the loop then continues from the options it built |
| Config.SwitchesStick | coreburner.c:304-318 | once `--check` or `--log-append` is set, no later argument clears it |
| Config.HaltsAt | coreburner.c:316-317 | the loop stops at once, with the options unchanged, at such an argument |
| Config.HelpHalts | coreburner.c:316 | `--help` in flag position stops the loop, so `parse_args` fails |
| Config.UnknownHalts | coreburner.c:317 | any argument that is not a known flag stops the loop |
| Config.TrailingValueFlagHalts | coreburner.c:305-317 | a value flag in last position is not accepted |
| Config.LogIntervalStaysPositive | coreburner.c:314 | a positive log interval stays positive through any argument list |
| Config.ParsedLogIntervalPositive | coreburner.c:302-314 | the log interval `parse_args` returns is at least 1 |
| Environment.XgetbvAvx | coreburner.c:158-167 | true exactly when XCR0 bits 1 and 2 are both set; EDX plays no part |
| Environment.CpuSupportsAvx | coreburner.c:169-181 | true exactly when leaf 1 exists, ECX bits 27 and 28 are set, and XCR0 bits 1 and 2 are set |
| Environment.AvailableCpus | coreburner.c:332 | at least 1; equal to `get_nprocs()` when that is positive |
| Environment.PlannedThreads | coreburner.c:333 | one thread in single mode (any letter case), one per CPU otherwise |
| Environment.ValidateEnvironment | coreburner.c:330-363 | ready exactly when `/proc/stat` is readable, the planned threads fit both limits, and an AVX/MIXED run has AVX; each refusal is stated for the inputs that reach it, in the order of the checks; a ready plan has 1 thread in single mode and one per CPU otherwise |
| Environment.AvxRunNeedsAvxState | coreburner.c:350-352 | an accepted AVX or MIXED run implies the CPUID bits and XCR0 & 6 == 6 |
| Environment.AcceptedRunThreadBounds | coreburner.c:333-335 | accepted options and environment give 1 to `--max-threads` (at most 256) threads |
| Environment.AcceptedNeverHitsSafetyLimit | coreburner.c:335 | after `parse_args` accepted the options, the 256-thread safety refusal cannot happen, because `--max-threads` is already at most 256 |
| Environment.InitWorkers | coreburner.c:416-421 | worker i is pinned to CPU i mod the CPU count, with the target, the type and a zero counter |
| Environment.PinningInjective | coreburner.c:417 | with no more workers than CPUs, no two workers share a CPU |
| Environment.PinningCoversCpus | coreburner.c:417 | with at least as many workers as CPUs, every CPU receives a worker |
| Thermal.TemperatureCandidates | coreburner.c:98-110 | 66 candidates: two thermal zones, then hwmon0 to hwmon63 |
| Thermal.FindTemperatureInputPath | coreburner.c:97-112 | the first readable candidate in that order, or none exactly when no candidate is readable |
| Thermal.ScaleTemperature | coreburner.c:121-122 | a raw value over 1000 is millidegrees (value / 1000, above 1), otherwise degrees |
| Thermal.ReadTemperature | coreburner.c:114-123 | a value exactly when there is a path and a reading, and then the scaled reading |
| Thermal.ShouldStop | coreburner.c:533 | an unreadable temperature never stops the run; a reading stops it exactly when it reaches the threshold |
| Thermal.StopOnMillidegrees | coreburner.c:533-536 | for a millidegree reading the run stops exactly when the raw value reaches 1000 times the threshold |
| Thermal.MillidegreesRoundTrip | coreburner.c:121-122 | whole degrees of 2 or more, reported in millidegrees, come back unchanged |
| Thermal.ScaleJumpsAtOneThousand | coreburner.c:121-122 | a raw 1000 is 1000 degrees while a raw 1001 is about one degree, so a raw 1000 trips a threshold of 90 |
| ProcStat.LineIdle | coreburner.c:83 | the idle ticks are the idle field alone when iowait was not read, and idle + iowait when that does not wrap |
| ProcStat.LineTotal | coreburner.c:85 | the total is the `uint64_t` sum of the idle and the non-idle ticks |
| ProcStat.CoreRecords | coreburner.c:76-91 | the accepted records stop at the first non-"cpu" line, skip the aggregate line and lines with fewer than four fields, and each have at least four fields |
| ProcStat.RecordsAt | coreburner.c:76-91 | how the accepted records from one line on follow from that line |
| ProcStat.ReadProcStat | coreburner.c:69-94 | -1 and nothing written when the file cannot be opened; otherwise returns the number of accepted lines; the first `max_cpus` of them have their total and idle ticks stored, and every other entry keeps its value |
| ProcStat.Totals | coreburner.c:85-88 | one total per accepted record, in record order |
| ProcStat.Idles | coreburner.c:83-88 | one idle count per accepted record, in record order |
| ProcStat.LineTicks | coreburner.c:83-85 | the C sums of one line are the idle ticks (idle + iowait) and the total ticks, modulo 2^64 |
| ProcStat.NonIdleChain | coreburner.c:84 | adding the non-idle fields one at a time in `uint64_t` gives the non-idle ticks |
| ProcStat.TotalMinusIdle | coreburner.c:83-85 | total minus idle in `uint64_t` is the non-idle part, even when the sums wrapped |
| ProcStat.TotalWithoutOverflow | coreburner.c:83-85 | without wrap-around, total = idle + non-idle and idle = idle field + iowait |
| ProcStat.CountCanExceedCapacity | coreburner.c:86-93 | two per-core lines give a count of 2, whatever `max_cpus` is |
| Interval.UsageAsWritten | coreburner.c:495-498 | the usage as C computes it: never negative, 0 when the total did not move, and at most 100 exactly when the wrapped busy delta does not exceed the wrapped total delta |
| Interval.UsageAsWrittenExceedsHundred | coreburner.c:495-498 | as written, an idle counter that moves back by 10 while the total grows by 10 gives 200 % |
| Interval.UsageAsWrittenBackwardsTotal | coreburner.c:495-498 | as written, a total counter that moves back gives 100 % instead of 0 |
| Interval.LoopBoundAsWritten | coreburner.c:491-492 | the loop count is at least 1, and stays within the CPU count exactly when the read count does |
| Interval.LoopBoundAsWrittenOverruns | coreburner.c:491-494 | as written, a count of 2 with one CPU makes the loop index past arrays of one entry |
| Interval.UpdateUtilisation | coreburner.c:491-501 | the loop as written, for a read count within the CPU count: one as-written usage per core below the bound, from the old previous and the current snapshot; the previous arrays then equal the current ones below the bound and are unchanged above it |
| Interval.Usage | coreburner.c:494-498 | the clamped usage lies in [0, 100]; it is 0 unless the total strictly grew; with monotone counters it is 100·(Δtotal − Δidle)/Δtotal |
| Interval.UsageAgreesWhenMonotone | coreburner.c:494-498 | with monotone counters and Δidle ≤ Δtotal, the clamped and the as-written usage agree |
| Interval.LoopBound | coreburner.c:491-494 | between 1 and the CPU count; the read count when that is in range; equal to the as-written bound exactly when the count does not exceed the CPU count |
| Interval.UpdateUtilisationClamped | coreburner.c:491-501 | the corrected loop: bounded by the CPU count, every usage in [0, 100], the previous arrays updated as in the loop as written |
| Interval.OpsDeltas | coreburner.c:522-527 | each delta is `ops - prev_ops[t]` modulo 2^64, or `ops` without `prev_ops`; `prev_ops` becomes `ops`; old value plus delta is `ops` modulo 2^64 |
| Interval.DeltasTelescope | coreburner.c:522-527 | over any series of readings, the logged deltas sum modulo 2^64 to the last reading minus the first |
| Interval.SubAddsUp | coreburner.c:524 | two consecutive wrapped deltas add up modulo 2^64 to the delta across both |
| Worker.ClampUtil | coreburner.c:207-209 | the target is held to [0, 100] and left unchanged inside it |
| Worker.DutyCycle | coreburner.c:206-211 | busy + sleep = 100,000,000 ns; both parts in [0, period]; busy is within 0.5 ns of util × 1,000,000 |
| Worker.DutyCycleOfWholePercent | coreburner.c:210-211 | a whole-percent target p gives exactly p·10^6 ns busy and (100 − p)·10^6 ns asleep |
| Worker.AcceptedUtilBusyShare | coreburner.c:210-211 | every accepted target keeps the worker busy for at least 10 ms; the sleep is zero exactly at the top of the range |
| Worker.Elapsed | coreburner.c:222 | the field-by-field difference of two readings is the difference of the instants they denote, normalised or not |
| Worker.CDiv | coreburner.c:255 | C division agrees with floor division for a non-negative dividend |
| Worker.CMod | coreburner.c:255 | C remainder: quotient × divisor + remainder = dividend, and the remainder takes the dividend's sign |
| Worker.SleepTimespec | coreburner.c:254-255 | seconds × 10^9 + nanoseconds equals the sleep budget, with nanoseconds in [0, 10^9) |
| Worker.SleepUnderOneSecond | coreburner.c:254-255 | every sleep budget gives a zero-second `timespec` |
| Worker.Units | coreburner.c:217-250 | INT, FLOAT and AVX run their own kernel once; MIXED runs all three, each once |
| Worker.Repeat | coreburner.c:217-250 | n iterations of a unit list run n times its length |
| Worker.RepeatCount | coreburner.c:217-250 | each kernel runs n times as often over n iterations as in one |
| Worker.Leaves | coreburner.c:222-223 | a seen stop flag always ends the busy loop; otherwise it ends exactly when the reading after the unit is at least the budget past the start |
| Worker.BusyPhase | coreburner.c:214-252 | no iteration without a budget; otherwise at least one, ending at the first iteration whose elapsed-time or stop check succeeds; the counter grows by the iteration count modulo 2^64; the kernels run are the type's units repeated |
| Worker.MixedRunsEveryUnit | coreburner.c:242-250 | for MIXED, n iterations run 3n kernels, each kernel exactly n times, while the counter grows by n |
| Worker.SleepAfterBusy | coreburner.c:253-257 | a sleep is requested exactly when the sleep budget is positive and no stop was seen, and it lasts the sleep budget |
| Worker.PeriodLastsAtLeastControlPeriod | coreburner.c:214-257 | a period that left the busy loop on time and then slept lasts at least 100 ms |

## Left out

- File, console and CSV output; the summary file; `print_usage`; the dry-run report of `--check`.
  These are I/O; only the type names printed at line 393 are modelled (`Config.TypeName`).
- Threads, `pthread_create`/`pthread_join`, signals and atomics. The model is sequential, the stop flag is an input
  sequence, and the counter is updated by one owner.
- `main`'s outer loops: the reporting loop, the deadline, and `sleep(1)` steps. The loops are modelled one interval at a time
  (`Interval.UpdateUtilisation`, `Interval.OpsDeltas`, `Thermal.ShouldStop`).
- The worker's outer period loop, its affinity call and its kernel state. The arithmetic of the integer, float and vector
  kernels is not modelled; a kernel is a name in the trace.
- The affinity probe in `validate_environment` (lines 337-348). It only prints warnings and does not change the verdict.
- The non-x86 branches of `check_xgetbv_avx`/`cpu_supports_avx` (always 0). The model is the x86 path.
- `read_temperature`'s warning in `validate_environment` (lines 355-360). It does not change the verdict.
- `fgets`'s 512-byte buffer. A longer line is split into pieces by `fgets`; the model takes whole lines.
- The `sscanf` parse of `/proc/stat` fields. It is an input: the fields it assigned and their count.
- CText.ScanDecimal: the value is the exact decimal the digits spell, not the nearest `double` that `strtod` returns.
  So `--util 100.00000000000000001` is rejected by the model, while C reads 100.0 and accepts it, and
  `--duration 0.49999999999999999` is 0 s in the model, while C reads 0.5 and rounds it to 1 s.
- CText.ScanDecimal: exponents ("5e3" is 5000 in C; the model reads 5 and stops at 'e'), hexadecimal ("0x10"),
  `inf`/`nan`, the locale's decimal point and `ERANGE` are not modelled. A number that sets `errno` in
  `parse_duration_seconds` is therefore not rejected by the model.
- CText.ScanInteger: `atoi` overflow is not modelled; values are unbounded integers.
- Thermal.ScaleTemperature: `v / 1000.0` is an exact real, not the `double` quotient, so a millidegree reading a
  rounding step away from a threshold may compare differently in C.
- Config.ParseDuration: the `(long)` conversion of an out-of-range result is not modelled.
- Interval.UsageAsWritten, Interval.Usage: these use exact reals. The `uint64_t` to `double` conversion and
  double rounding are not modelled.
- Interval.UpdateUtilisation: requires a read count no larger than the CPU count. With a larger count the C loop
  reads and writes past the arrays (undefined behaviour), which the model cannot run; `Interval.LoopBoundAsWrittenOverruns`
  shows the input that gets there, and `Interval.UpdateUtilisationClamped` is the loop without that case.
- Worker.DutyCycle: exact reals. A NaN target, which passes both clamps in C, cannot arise in the model.
- Worker.BusyPhase: `long` overflow of the elapsed-time expression is not modelled.
- Worker.BusyPhase: the model asks that the readings end with an exiting iteration, so the scripted clock must
  eventually reach the budget or see a stop.

## Findings

| source | as written | input that shows it | evidently intended | confidence | as-written member | corrected member |
|---|---|---|---|---|---|---|
| coreburner.c:495-498 | `totald` and `totald - idled` are computed in `uint64_t` with no clamp; only `totald == 0` gives 0 | previous (total 1000, idle 500), current (1010, 490): usage 200 %; previous total 1010, current 1000: usage 100 % | utilisation in [0, 100], and 0 when the total does not grow | not executed | Interval.UsageAsWrittenExceedsHundred, Interval.UsageAsWrittenBackwardsTotal | Interval.Usage, Interval.UpdateUtilisationClamped |
| coreburner.c:491-501 | `read_proc_stat` counts every per-core line, but stores only the first `max_cpus`; `main` loops to that count over arrays of `available_cpus` entries | `/proc/stat` with two per-core lines, `available_cpus` = 1: count 2, so the loop reads and writes index 1 of one-entry arrays | iterate over at most `available_cpus` cores | not executed | Interval.LoopBoundAsWrittenOverruns, ProcStat.CountCanExceedCapacity | Interval.LoopBound, Interval.UpdateUtilisationClamped |
