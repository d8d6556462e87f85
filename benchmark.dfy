/** The benchmark loop of `main` (src/main.rs, lines 90-106): thirty timed
    forward passes over one input, their times accumulated in a `u64`, and a
    final report of the floor average and the estimated frequency. */
module Benchmark {
  import opened Config
  import opened Clock

  /** The figures of the final log line. */
  datatype Summary = Summary(averageMs: nat, frequencyHz: nat)

  /** One line of the log, in the order the benchmark emits them. */
  datatype LogLine = TimeLine(ms: nat) | SummaryLine(summary: Summary)

  /** The ways the benchmark panics: a backwards clock in `duration_since`,
      an overflow of `time_sum += time`, or the integer division by a zero
      average in the report. */
  datatype Panic = ClockWentBackwards(iteration: nat) | SumOverflow(iteration: nat) | DivisionByZero

  datatype Outcome = Completed(summary: Summary) | Panicked(panic: Panic)

  /** The "Time" lines of the iterations that produced the given times. */
  function TimeLog(times: seq<nat>): (log: seq<LogLine>)
    ensures |log| == |times|
    ensures forall i :: 0 <= i < |times| ==> log[i] == TimeLine(times[i])
  {
    if times == [] then [] else TimeLog(times[..|times| - 1]) + [TimeLine(times[|times| - 1])]
  }

  /** The report line: `time_sum / N` and `1000 / (time_sum / N)`, both by
      integer division. It panics exactly when fewer than N milliseconds were
      accumulated; otherwise the average is the largest whole number of
      milliseconds per pass not above the true mean, and the frequency the
      largest whole number of passes per second at that average. */
  function Report(timeSum: u64): (r: Outcome)
    ensures r.Completed? <==> N <= timeSum
    ensures r.Panicked? ==> r.panic == DivisionByZero
    ensures r.Completed? ==>
      var avg := r.summary.averageMs;
      0 < avg && avg * N <= timeSum < (avg + 1) * N
    ensures r.Completed? ==>
      var avg, freq := r.summary.averageMs, r.summary.frequencyHz;
      freq * avg <= 1000 < (freq + 1) * avg
  {
    var average := timeSum / N;
    if average == 0 then Panicked(DivisionByZero)
    else
      var frequency := 1000 / average;
      assert frequency * average <= 1000 < (frequency + 1) * average by {
        assert 1000 == frequency * average + 1000 % average;
      }
      Completed(Summary(average, frequency))
  }

  /** What the loop has produced after some iterations: the accumulated
      `time_sum`, the lines logged, the number of forward passes made, and the
      panic that stopped it, if any. */
  datatype Progress = Progress(timeSum: nat, log: seq<LogLine>, passes: nat, panic: Option<Panic>)

  /** The loop of lines 94-104 run over the clock readings of its iterations,
      as a function of those readings. Each iteration makes a forward pass,
      then takes its time (stopping on a backwards clock), logs it, then adds
      it to the sum (stopping on overflow). Once stopped, nothing further
      happens. */
  function Iterate(samples: seq<Sample>): Progress {
    if samples == [] then Progress(0, [], 0, None)
    else
      var p := Iterate(samples[..|samples| - 1]);
      var k := |samples| - 1;
      var s := samples[k];
      if p.panic.Some? then p
      else if !Monotone(s) then Progress(p.timeSum, p.log, p.passes + 1, Some(ClockWentBackwards(k)))
      else
        var time := ElapsedMillis(s);
        if U64_LIMIT <= p.timeSum + time
        then Progress(p.timeSum, p.log + [TimeLine(time)], p.passes + 1, Some(SumOverflow(k)))
        else Progress(p.timeSum + time, p.log + [TimeLine(time)], p.passes + 1, None)
  }

  /** The loop of the benchmark (lines 90-104) over the clock readings of its
      iterations, in order (the benchmark supplies N of them). `fed` records the input handed to each forward
      pass that was made and `log` the lines emitted. The loop stops early
      with `panic` when the clock goes backwards or the sum overflows, and
      otherwise returns the accumulated `time_sum`. */
  method TimeIterations<T>(input: T, samples: seq<Sample>)
    returns (timeSum: u64, log: seq<LogLine>, fed: seq<T>, panic: Option<Panic>)
    // every forward pass receives the same input, unchanged
    ensures forall j :: 0 <= j < |fed| ==> fed[j] == input
    ensures Iterate(samples) == Progress(timeSum, log, |fed|, panic)
  {
    timeSum, log, fed := 0, [], [];
    var i := 0;
    while i < |samples|
      invariant 0 <= i <= |samples|
      invariant Iterate(samples[..i]) == Progress(timeSum, log, i, None)
      invariant |fed| == i && forall j :: 0 <= j < i ==> fed[j] == input
    {
      assert samples[..i + 1][..i] == samples[..i];
      var start := samples[i].start;
      fed := fed + [input];
      var stop := samples[i].stop;
      var duration := DurationSince(stop, start);
      if duration.None? {
        panic := Some(ClockWentBackwards(i));
        StaysStopped(samples, i + 1);
        return;
      }
      var time := AsMillis(duration.value);
      log := log + [TimeLine(time)];
      if timeSum + time >= U64_LIMIT {
        panic := Some(SumOverflow(i));
        StaysStopped(samples, i + 1);
        return;
      }
      timeSum := timeSum + time;
      i := i + 1;
    }
    assert samples[..i] == samples;
    panic := None;
  }

  /** After a panic, later clock readings change nothing. */
  lemma {:induction false} StaysStopped(samples: seq<Sample>, k: nat)
    requires k <= |samples| && Iterate(samples[..k]).panic.Some?
    ensures Iterate(samples) == Iterate(samples[..k])
  {
    if k < |samples| {
      var init := samples[..|samples| - 1];
      assert init[..k] == samples[..k];
      StaysStopped(init, k);
    } else {
      assert samples[..k] == samples;
    }
  }

  /** Appending one monotone iteration to a run appends its time, its
      "Time" line and its contribution to the sum. */
  lemma {:induction false} Extend(samples: seq<Sample>)
    requires samples != [] && Monotone(samples[|samples| - 1])
    requires AllMonotone(samples[..|samples| - 1])
    ensures AllMonotone(samples)
    ensures
      var init, time := samples[..|samples| - 1], ElapsedMillis(samples[|samples| - 1]);
      Times(samples) == Times(init) + [time] &&
      Sum(Times(samples)) == Sum(Times(init)) + time &&
      TimeLog(Times(samples)) == TimeLog(Times(init)) + [TimeLine(time)]
  {
  }

  /** A run is monotone exactly when all iterations but the last are and the last one is. */
  lemma {:induction false} MonotonePrefix(samples: seq<Sample>)
    requires samples != []
    ensures AllMonotone(samples) <==>
      AllMonotone(samples[..|samples| - 1]) && Monotone(samples[|samples| - 1])
  {
  }

  /** The loop runs to the end exactly when the clock never went backwards
      and the sum of the times fits a u64; it then holds that sum, one
      "Time" line per iteration and one forward pass per iteration. */
  lemma {:induction false} IterateCompletes(samples: seq<Sample>)
    ensures Iterate(samples).panic.None? <==> AllMonotone(samples) && Sum(Times(samples)) < U64_LIMIT
    ensures Iterate(samples).panic.None? ==>
      Iterate(samples) == Progress(Sum(Times(samples)), TimeLog(Times(samples)), |samples|, None)
  {
    if samples != [] {
      IterateCompletes(samples[..|samples| - 1]);
      MonotonePrefix(samples);
      if AllMonotone(samples) {
        Extend(samples);
      }
    }
  }

  /** What the loop has logged and run when it panics: the panic names an
      iteration k, after whose forward pass it happened, and all iterations
      before k were timed. A backwards clock reading at k stops the loop
      before k is logged; an overflowing addition at k stops it after k's
      time is logged. */
  predicate StoppedAt(samples: seq<Sample>, log: seq<LogLine>, passes: nat, panic: Panic) {
    !panic.DivisionByZero? && panic.iteration < |samples| &&
    passes == panic.iteration + 1 && AllMonotone(samples[..panic.iteration]) &&
    (panic.ClockWentBackwards? ==>
      !Monotone(samples[panic.iteration]) &&
      log == TimeLog(Times(samples[..panic.iteration]))) &&
    (panic.SumOverflow? ==>
      AllMonotone(samples[..panic.iteration + 1]) &&
      Sum(Times(samples[..panic.iteration])) < U64_LIMIT <= Sum(Times(samples[..panic.iteration + 1])) &&
      log == TimeLog(Times(samples[..panic.iteration + 1])))
  }

  /** When the loop panics it does so as `StoppedAt` describes, with the sum
      left as it stood after the iterations before the stopping one. */
  lemma {:induction false} IterateStops(samples: seq<Sample>)
    requires Iterate(samples).panic.Some?
    ensures
      var p := Iterate(samples);
      StoppedAt(samples, p.log, p.passes, p.panic.value) &&
      p.timeSum == Sum(Times(samples[..p.panic.value.iteration]))
  {
    var init := samples[..|samples| - 1];
    if Iterate(init).panic.Some? {
      IterateStops(init);
      var k := Iterate(init).panic.value.iteration;
      assert init[..k] == samples[..k];
      assert init[..k + 1] == samples[..k + 1];
    } else {
      StopsAtLast(samples);
    }
  }

  /** A panic in the last iteration, after all earlier ones completed. */
  lemma {:induction false} StopsAtLast(samples: seq<Sample>)
    requires samples != [] && Iterate(samples[..|samples| - 1]).panic.None?
    requires Iterate(samples).panic.Some?
    ensures
      var p := Iterate(samples);
      StoppedAt(samples, p.log, p.passes, p.panic.value) &&
      p.timeSum == Sum(Times(samples[..p.panic.value.iteration]))
  {
    var init := samples[..|samples| - 1];
    IterateCompletes(init);
    assert samples[..|samples|] == samples;
    if Monotone(samples[|samples| - 1]) {
      Extend(samples);
    }
  }

  /** The whole benchmark (lines 90-106): the N timed iterations followed by
      the report line. `outcome` is the report, or the panic that ended the
      run. */
  method RunBenchmark<T>(input: T, samples: seq<Sample>)
    returns (log: seq<LogLine>, fed: seq<T>, outcome: Outcome)
    requires |samples| == N
    // every forward pass receives the same input, unchanged
    ensures forall j :: 0 <= j < |fed| ==> fed[j] == input
    // the run completes exactly when the clock never went backwards and the
    // accumulated time did not stay below N milliseconds (it always fits a u64)
    ensures outcome.Completed? <==>
      AllMonotone(samples) && N <= Sum(Times(samples)) < U64_LIMIT
    ensures outcome.Completed? ==>
      |fed| == N && outcome == Report(Sum(Times(samples))) &&
      log == TimeLog(Times(samples)) + [SummaryLine(outcome.summary)]
    ensures outcome == Panicked(DivisionByZero) <==>
      AllMonotone(samples) && Sum(Times(samples)) < N
    ensures outcome == Panicked(DivisionByZero) ==>
      |fed| == N && log == TimeLog(Times(samples))
    // N passes cannot overflow the sum: the only other panic is a backwards clock
    ensures outcome.Panicked? && outcome.panic != DivisionByZero ==>
      outcome.panic.ClockWentBackwards? && StoppedAt(samples, log, |fed|, outcome.panic)
  {
    var timeSum, panic;
    timeSum, log, fed, panic := TimeIterations(input, samples);
    IterateCompletes(samples);
    if panic.Some? {
      IterateStops(samples);
      var k := panic.value.iteration;
      if panic.value.SumOverflow? {
        NPassesFit(samples[..k + 1]);
        assert false;
      }
      return log, fed, Panicked(panic.value);
    }
    outcome := Report(timeSum);
    if outcome.Completed? {
      log := log + [SummaryLine(outcome.summary)];
    }
  }

  /** The reported average lies between the fastest and the slowest of the
      thirty iterations. */
  lemma {:induction false} MeanBetweenExtremes(times: seq<nat>, lo: nat, hi: nat)
    requires |times| == N
    requires forall i :: 0 <= i < |times| ==> lo <= times[i] <= hi
    ensures lo <= Sum(times) / N <= hi
  {
    SumBounds(times, lo, hi);
  }

  /** When the passes together take less than N milliseconds of true time,
      the accumulated whole-millisecond time is below N and the report
      divides by zero. */
  lemma {:induction false} FastPassesDivideByZero(samples: seq<Sample>)
    requires |samples| == N && AllMonotone(samples)
    requires TotalTicks(samples) < N * TICKS_PER_MILLI
    ensures Sum(Times(samples)) < N
    ensures Report(Sum(Times(samples))) == Panicked(DivisionByZero)
  {
    TruncationLoss(samples);
  }

  /** At most N passes cannot overflow `time_sum`: no single time exceeds
      the largest `u64` duration in milliseconds, and N of those still fit. */
  lemma {:induction false} NPassesFit(samples: seq<Sample>)
    requires |samples| <= N && AllMonotone(samples)
    ensures Sum(Times(samples)) < U64_LIMIT
  {
    var ts, hi := Times(samples), U64_LIMIT / TICKS_PER_MILLI;
    forall i | 0 <= i < |ts|
      ensures ts[i] <= hi
    {
      TimesAt(samples, i);
    }
    SumBounds(ts, 0, hi);
    assert |ts| * hi <= N * hi;
  }

  /** When the passes together take at least 2N milliseconds of true time,
      the report is always defined. */
  lemma {:induction false} SlowPassesReport(samples: seq<Sample>)
    requires |samples| == N && AllMonotone(samples)
    requires 2 * N * TICKS_PER_MILLI <= TotalTicks(samples)
    ensures N <= Sum(Times(samples)) < U64_LIMIT
    ensures Report(Sum(Times(samples))).Completed?
  {
    NPassesFit(samples);
    TruncationLoss(samples);
  }

  /** A clock that does not advance during any pass: every iteration reads
      0 ms and the report divides by zero. */
  lemma {:induction false} FrozenClockDividesByZero(t: Instant)
    ensures var samples := seq(N, _ => Sample(t, t));
      AllMonotone(samples) && Sum(Times(samples)) == 0 &&
      Report(Sum(Times(samples))) == Panicked(DivisionByZero)
  {
    var samples := seq(N, _ => Sample(t, t));
    assert AllMonotone(samples);
    SumBounds(Times(samples), 0, 0) by {
      forall i | 0 <= i < |Times(samples)|
        ensures Times(samples)[i] == 0
      {
        TimesAt(samples, i);
      }
    }
  }

  /** The arithmetic of the report on thirty passes totalling 900 ms. */
  lemma {:induction false} ThirtyPassesOf900Ms()
    ensures Report(900) == Completed(Summary(30, 33))
  {
  }
}
