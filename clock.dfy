/** The monotonic clock the benchmark reads around each forward pass
    (src/main.rs, lines 95-98). The clock itself is not modelled: the readings
    it returns are supplied as data, one pair per iteration. */
module Clock {
  import opened Config

  datatype Option<T> = None | Some(value: T)

  /** Clock ticks per millisecond. The tick rate is a build-time setting of
      the time library; this model fixes it at 1 MHz. */
  const TICKS_PER_MILLI: nat := 1000

  /** A reading of the clock, in ticks since boot. */
  datatype Instant = Instant(ticks: u64)

  /** The two readings of one iteration: just before and just after the
      forward pass. */
  datatype Sample = Sample(start: Instant, stop: Instant)

  /** The clock did not go backwards between the two readings. */
  predicate Monotone(s: Sample) {
    s.start.ticks <= s.stop.ticks
  }

  predicate AllMonotone(samples: seq<Sample>) {
    forall i :: 0 <= i < |samples| ==> Monotone(samples[i])
  }

  /** `later.duration_since(earlier)`, in ticks. It has no value (the
      subtraction is checked and the firmware panics) when `earlier` is the
      later reading. */
  function DurationSince(later: Instant, earlier: Instant): (d: Option<u64>)
    ensures d.Some? <==> earlier.ticks <= later.ticks
    ensures d.Some? ==> earlier.ticks + d.value == later.ticks
  {
    if earlier.ticks <= later.ticks then Some(later.ticks - earlier.ticks) else None
  }

  /** `Duration::as_millis`: the whole number of milliseconds in a duration,
      rounding down. */
  function AsMillis(ticks: u64): (ms: u64)
    ensures ms * TICKS_PER_MILLI <= ticks < (ms + 1) * TICKS_PER_MILLI
  {
    ticks / TICKS_PER_MILLI
  }

  /** The `time` value of one iteration: whole milliseconds between its two readings. */
  function ElapsedMillis(s: Sample): (ms: u64)
    requires Monotone(s)
    ensures ms * TICKS_PER_MILLI <= s.stop.ticks - s.start.ticks < (ms + 1) * TICKS_PER_MILLI
  {
    AsMillis(DurationSince(s.stop, s.start).value)
  }

  /** The `time` values of a run of iterations, in iteration order. */
  function Times(samples: seq<Sample>): (ts: seq<nat>)
    requires AllMonotone(samples)
    ensures |ts| == |samples|
  {
    if samples == [] then []
    else Times(samples[..|samples| - 1]) + [ElapsedMillis(samples[|samples| - 1])]
  }

  /** The i-th time is the elapsed time of the i-th iteration. */
  lemma {:induction false} TimesAt(samples: seq<Sample>, i: nat)
    requires AllMonotone(samples) && i < |samples|
    ensures Times(samples)[i] == ElapsedMillis(samples[i])
  {
    var init := samples[..|samples| - 1];
    if i < |init| {
      assert AllMonotone(init);
      TimesAt(init, i);
    }
  }

  /** The true time spent between the readings of each iteration, in ticks. */
  function TotalTicks(samples: seq<Sample>): nat
    requires AllMonotone(samples)
  {
    if samples == [] then 0
    else TotalTicks(samples[..|samples| - 1]) + (samples[|samples| - 1].stop.ticks - samples[|samples| - 1].start.ticks)
  }

  /** Sum of a sequence, accumulated front to back. */
  function Sum(xs: seq<nat>): nat {
    if xs == [] then 0 else Sum(xs[..|xs| - 1]) + xs[|xs| - 1]
  }

  /** The time accumulated over the first k iterations never exceeds the time
      accumulated over all of them. */
  lemma {:induction false} SumPrefixBound(samples: seq<Sample>, k: nat)
    requires AllMonotone(samples) && k <= |samples|
    ensures AllMonotone(samples[..k])
    ensures Sum(Times(samples[..k])) <= Sum(Times(samples))
  {
    if k < |samples| {
      var init := samples[..|samples| - 1];
      assert init[..k] == samples[..k];
      assert AllMonotone(init);
      SumPrefixBound(init, k);
      var ts := Times(samples);
      assert ts[..|ts| - 1] == Times(init);
    } else {
      assert samples[..k] == samples;
    }
  }

  /** A sum of values within [lo, hi] lies within |xs| times those bounds. */
  lemma {:induction false} SumBounds(xs: seq<nat>, lo: nat, hi: nat)
    requires forall i :: 0 <= i < |xs| ==> lo <= xs[i] <= hi
    ensures |xs| * lo <= Sum(xs) <= |xs| * hi
  {
    if xs != [] {
      var init := xs[..|xs| - 1];
      SumBounds(init, lo, hi);
      assert |xs| * lo == |init| * lo + lo && |xs| * hi == |init| * hi + hi by {
        assert |xs| == |init| + 1;
      }
    }
  }

  /** Each iteration's time is rounded down to whole milliseconds, so the
      accumulated time is short of the true time by less than one millisecond
      per iteration. */
  lemma {:induction false} TruncationLoss(samples: seq<Sample>)
    requires AllMonotone(samples)
    ensures Sum(Times(samples)) * TICKS_PER_MILLI <= TotalTicks(samples)
    ensures samples != [] ==> TotalTicks(samples) < (Sum(Times(samples)) + |samples|) * TICKS_PER_MILLI
  {
    if samples != [] {
      var init := samples[..|samples| - 1];
      assert AllMonotone(init);
      TruncationLoss(init);
      var ts := Times(samples);
      assert ts[..|ts| - 1] == Times(init);
    }
  }
}
