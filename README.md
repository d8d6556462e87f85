# Timing model of the burn-on-esp inference benchmark

The firmware builds a small multilayer perceptron and runs it 30 times on one
random `[1, 8, 8]` input. It times each forward pass with the monotonic clock,
adds the whole-millisecond times into a `u64` named `time_sum`, and logs each
time. At the end it logs the floor average `time_sum / 30` and an "estimated
frequency" `1000 / (time_sum / 30)`.

This project models that benchmark loop and its report. It also models the
fixed configuration constants and the input shape.

- `Config` (`config.dfy`): the `MlpConfig` and `MnistConfig` values, the
  input shape, the iteration count `N = 30`, and the element count of a shape.
  It proves that the input flattens to the configured input size of 64.
- `Clock` (`clock.dfy`): clock readings in ticks. It covers `duration_since`
  (which panics on a backwards reading), `as_millis` (which rounds down), the
  per-iteration times, and their sum. Each pass is described by a `Sample`,
  its readings just before and just after `forward`. The clock is not
  modelled: its readings are supplied as data.
- `Benchmark` (`benchmark.dfy`): the loop as a method with a `while` loop and
  its invariants, and the report line as a function. The method is proved
  equal to `Iterate`, a function of the clock readings. Lemmas then state what
  `Iterate` computes, for runs that complete and for runs that panic. The log
  is a sequence of structured lines. The forward pass is recorded only as the
  input it receives.

Every way the run can end is an explicit outcome:

- the report line;
- a panic in `duration_since` when the clock goes backwards;
- a panic when `time_sum += time` overflows `u64`; the loop on its own admits
  this, but `NPassesFit` shows that 30 passes can never reach it;
- a panic when the report divides by a zero average.

The code does not guard that last division. The average is 0 whenever fewer
than 30 ms are accumulated. With Info logging enabled, as the model assumes,
the code then panics and does not report "frequency undefined". The model
follows the code. `FastPassesDivideByZero`
and `FrozenClockDividesByZero` show the panic is reachable. The average is 0,
and the division panics, whenever thirty passes take less than 30 ms of real
time in total.

## Model

| member | source | states |
|---|---|---|
| `Config.Product` | src/main.rs:87 | the number of elements of a tensor of a shape; it has no contract of its own and is described by `ProductZero` and `ProductAppend` |
| `Config.ProductZero` | src/main.rs:87 | the element count of a shape is zero exactly when some dimension is zero |
| `Config.ProductAppend` | src/main.rs:87 | flattening composes: leading (batch) dimensions multiply the element count of the trailing ones |
| `Config.InputShapeMatchesConfig` | src/main.rs:75-88 | the input shape `[1, 8, 8]` flattens to the configured `input_size` of 64, as a single batch of one 64-element vector |
| `Clock.DurationSince` | src/main.rs:98 | `duration_since` is defined exactly when the earlier reading is not after the later one, and the start plus the duration is the stop |
| `Clock.AsMillis` | src/main.rs:98 | `as_millis` gives the largest whole number of milliseconds that fits in the duration |
| `Clock.ElapsedMillis` | src/main.rs:95-98 | an iteration's `time` is the whole milliseconds between the readings that bracket `forward` |
| `Clock.Times` | src/main.rs:94-98 | one time per iteration, so the sequence has as many entries as there are iterations |
| `Clock.TimesAt` | src/main.rs:94-98 | the i-th time is the elapsed time of the i-th iteration, in iteration order |
| `Clock.SumPrefixBound` | src/main.rs:94-103 | the time accumulated over the first k iterations never exceeds the time accumulated over all of them |
| `Clock.TruncationLoss` | src/main.rs:98-103 | the accumulated milliseconds fall short of the true time between readings by less than one millisecond per iteration, and never exceed it |
| `Benchmark.TimeLog` | src/main.rs:101 | one "Time" line per iteration, carrying that iteration's time, in iteration order |
| `Benchmark.Report` | src/main.rs:106 | panics by division by zero exactly when `time_sum < N`; otherwise the average is the floor of `time_sum / N` (positive) and the frequency the floor of `1000 / average` |
| `Benchmark.TimeIterations` | src/main.rs:90-104 | the loop, with `time_sum` starting at 0 and updated in place, produces exactly the sum, log, pass count and panic of `Iterate` on the same readings, and hands every forward pass the same input |
| `Benchmark.Iterate` | src/main.rs:94-104 | the loop as a function of the clock readings; it has no contract of its own and is described by `IterateCompletes`, `IterateStops` and `StaysStopped`, and `TimeIterations` is proved equal to it |
| `Benchmark.StaysStopped` | src/main.rs:94-104 | once an iteration panics, the readings of later iterations change nothing |
| `Benchmark.IterateCompletes` | src/main.rs:94-104 | the loop runs all iterations exactly when the clock never went backwards and the sum of the times stays below 2^64 (for loops of any length); then `time_sum` is that sum, with one "Time" line and one forward pass per iteration, in order |
| `Benchmark.IterateStops` | src/main.rs:94-104 | a panicking loop names the iteration that stopped it, after that iteration's forward pass: a backwards reading stops it before that iteration is logged, an overflowing addition after, with the sum left as it stood before |
| `Benchmark.Extend` | src/main.rs:98-103 | one more monotone iteration appends its time to the times, its "Time" line to the log and its value to the sum |
| `Benchmark.RunBenchmark` | src/main.rs:90-106 | the run completes exactly when the clock never went backwards and the total time is at least N; it then logs N "Time" lines followed by the report of that total; it panics by division by zero exactly when the clock was monotone and the total is below N, after N passes; any other panic is a backwards clock, stopping the run as `IterateStops` states (the sum never overflows); every pass gets the same input |
| `Benchmark.NPassesFit` | src/main.rs:90-103 | at most N passes can never overflow the `u64` sum, because each time is a `u64` duration divided into milliseconds |
| `Benchmark.MeanBetweenExtremes` | src/main.rs:106 | the reported average lies between the fastest and the slowest iteration's time |
| `Benchmark.FastPassesDivideByZero` | src/main.rs:95-106 | thirty passes taking under 30 ms of true time in total make the report divide by zero |
| `Benchmark.SlowPassesReport` | src/main.rs:95-106 | thirty passes taking at least 60 ms of true time in total always give a defined report |
| `Benchmark.FrozenClockDividesByZero` | src/main.rs:95-106 | a clock that does not advance during any pass gives all-zero times and a division by zero |
| `Benchmark.ThirtyPassesOf900Ms` | src/main.rs:106 | thirty passes totalling 900 ms report an average of 30 ms and a frequency of 33 Hz |

## Left out

- Heap setup (`init_heap`, src/main.rs:32-42): raw memory plumbing with no observable behaviour in this code.
- Peripheral, clock-tree, timer-group, executor and logger initialisation (src/main.rs:47-54), and the wifi/radio initialisation (src/main.rs:56-64): hardware and foreign calls.
- Model construction and the forward pass (`Model::new`, `Model::forward`, and the definitions of `MlpConfig` and `MnistConfig`): the `mlp`, `model` and `conv` modules are not part of this model; only the configuration values built on src/main.rs:70-80 are. They compute in `f32` inside the `burn` library. A forward pass is recorded only as the input it receives. Its output is discarded by the code.
- `Backend::seed` and `Tensor::random` (src/main.rs:84-88): library random generation over floats. The input is a value of an arbitrary type, passed unchanged to every pass.
- The clock itself: readings are supplied as data. The tick rate is a build-time setting of the time library; the model fixes it at 1 MHz (1000 ticks per millisecond).
- Log transport and text formatting: the "Hello, burn!" line and the format strings are not modelled. Log lines are structured values carrying the printed numbers.
- RunBenchmark: assumes Info logging is enabled. The `log::info!` macro evaluates its arguments only when the Info level passes the filter, which `init_logger_from_env` (src/main.rs:51) reads from the build environment. With Info filtered out, the code logs nothing and evaluates neither division on src/main.rs:106, so a run with `time_sum < 30` ends without a panic, where the model reports `DivisionByZero`. The model fixes the filter because the benchmark exists to print these lines.
- TimeIterations: models `time_sum += time` with Rust's overflow checks on, where an overflow panics. A build with overflow checks off would wrap around modulo 2^64 instead.
- The dropout rate is a `real` constant, where the code has an `f32`. It is never computed with here.
