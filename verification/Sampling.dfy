/** The sampling loops of monitor_server_health (server_monitor.c) for every behaviour of the clock. */
module Sampling {
  import opened Common
  import opened Clocks

  // ---------------------------------------------------------------------------------------------
  // Arithmetic of the sampling grid

  function CeilDiv(a: int, b: int): int
    requires b > 0
  {
    (a + b - 1) / b
  }

  lemma NegativeFactor(x: int, b: int)
    requires b > 0 && x * b < 0
    ensures x < 0
  {
  }

  lemma NoRoom(n: int, q: int, b: int)
    requires b > 0 && n * b < b * q + b
    ensures n <= q
  {
    assert (n - q - 1) * b == n * b - b * q - b;
    NegativeFactor(n - q - 1, b);
  }

  lemma DivideBounds(c: int, b: int)
    requires b > 0
    ensures b * (c / b) <= c < b * (c / b) + b
  {
  }

  lemma MultipleFits(n: nat, c: int, b: int)
    requires b > 0 && n * b <= c
    ensures n <= c / b
  {
    DivideBounds(c, b);
    NoRoom(n, c / b, b);
  }

  lemma CeilDivAbove(n: nat, a: int, b: int)
    requires b > 0 && n > 0 && (n - 1) * b < a
    ensures n <= CeilDiv(a, b)
  {
    assert (n - 1) * b == n * b - b;
    MultipleFits(n, a + b - 1, b);
  }

  lemma CeilDivBelow(a: int, b: int, n: nat)
    requires b > 0 && 0 < a <= n * b
    ensures CeilDiv(a, b) <= n
  {
    var c := a + b - 1;
    DivideBounds(c, b);
    assert c / b * b < b * n + b;
    NoRoom(c / b, n, b);
  }

  /** C division truncates towards zero. */
  function CDiv(a: int, b: int): int
    requires b > 0
  {
    if a >= 0 then a / b else -(-a / b)
  }

  lemma QuotientGrows(a: nat, c: nat, b: int)
    requires b > 0 && a + b <= c
    ensures a / b < c / b
  {
    DivideBounds(a, b);
    assert (a / b + 1) * b == b * (a / b) + b;
    MultipleFits(a / b + 1, c, b);
  }

  lemma QuotientBounded(a: nat, b: int, d: int)
    requires b > 0 && a < d
    ensures 0 <= a / b < CeilDiv(d, b)
  {
    DivideBounds(a, b);
    assert a / b * b == b * (a / b);
    CeilDivAbove(a / b + 1, d, b);
  }

  // ---------------------------------------------------------------------------------------------
  // The fixed-count mode

  /** Consecutive samples start at least one interval apart. */
  ghost predicate Spaced(taken: seq<Taken>, intervalMs: int) {
    forall k :: 0 < k < |taken| ==> taken[k - 1].at + InNanos(intervalMs) <= taken[k].at
  }

  ghost predicate AllOk(taken: seq<Taken>) {
    forall k :: 0 <= k < |taken| ==> taken[k].status == Ok
  }

  /** Taking one snapshot lasts any time and may fail to read /proc. */
  method TakeSample(clock: Clock) returns (status: Status, ghost sample: Taken)
    modifies clock`nanos, clock`taken
    ensures sample.at == old(clock.nanos) <= sample.until == clock.nanos && sample.status == status
    ensures clock.taken == old(clock.taken) + [sample]
    ensures status == Ok || status == IoError || status == ParseError
  {
    ghost var at := clock.nanos;
    clock.Pass();
    var outcome: int := *;
    status := if outcome == 0 then Ok else if outcome == 1 then IoError else ParseError;
    sample := Taken(at, clock.nanos, status);
    clock.taken := clock.taken + [sample];
  }

  /** After sample k there is a sleep of exactly the interval, and nothing else takes time before the
      next one. */
  ghost predicate SleepsAfter(taken: seq<Taken>, sleeps: seq<Sleep>, k: nat, intervalMs: int)
    requires k < |sleeps|
  {
    && k < |taken| && sleeps[k].at == taken[k].until && sleeps[k].requestMs == intervalMs && sleeps[k].Valid()
    && (k + 1 < |taken| ==> taken[k + 1].at == sleeps[k].Until())
  }

  ghost predicate SleepsBetween(taken: seq<Taken>, sleeps: seq<Sleep>, intervalMs: int) {
    && (forall k: nat :: k < |sleeps| ==> SleepsAfter(taken, sleeps, k, intervalMs))
    && forall k :: 0 <= k < |taken| ==> taken[k].at <= taken[k].until
  }

  /** What the fixed-count mode does: samples one interval apart until one fails or all are taken. */
  ghost predicate CountedRun(status: Status, taken: seq<Taken>, sleeps: seq<Sleep>, intervalMs: int, iterations: int) {
    && 0 < |taken| <= iterations && |sleeps| == |taken| - 1 && SleepsBetween(taken, sleeps, intervalMs)
    && AllOk(taken[..|taken| - 1]) && status == taken[|taken| - 1].status
    && (status == Ok ==> |taken| == iterations)
  }

  /** Two consecutive samples are apart by the interval, the time the first one takes, and the
      overrun of the sleep between them. */
  lemma CountedGap(status: Status, taken: seq<Taken>, sleeps: seq<Sleep>, intervalMs: int, iterations: int, k: nat)
    requires CountedRun(status, taken, sleeps, intervalMs, iterations) && k + 1 < |taken|
    ensures taken[k + 1].at - taken[k].at
         == InNanos(intervalMs) + (taken[k].until - taken[k].at) + sleeps[k].Late()
    ensures taken[k].at + InNanos(intervalMs) <= taken[k + 1].at
  {
    assert SleepsAfter(taken, sleeps, k, intervalMs);
    SleepLasts(sleeps[k]);
  }

  lemma CountedRunIsSpaced(status: Status, taken: seq<Taken>, sleeps: seq<Sleep>, intervalMs: int, iterations: int)
    requires CountedRun(status, taken, sleeps, intervalMs, iterations)
    ensures Spaced(taken, intervalMs)
  {
    forall k | 0 < k < |taken|
      ensures taken[k - 1].at + InNanos(intervalMs) <= taken[k].at
    {
      CountedGap(status, taken, sleeps, intervalMs, iterations, k - 1);
    }
  }

  /** The state of the run before another sample, where all samples so far have succeeded and the
      last sleep has ended at now. */
  ghost predicate Counting(taken: seq<Taken>, sleeps: seq<Sleep>, now: nat, intervalMs: int) {
    && |sleeps| == |taken| && SleepsBetween(taken, sleeps, intervalMs) && AllOk(taken)
    && (sleeps != [] ==> sleeps[|sleeps| - 1].Until() == now)
  }

  lemma CountSample(taken: seq<Taken>, sleeps: seq<Sleep>, sample: Taken, intervalMs: int)
    requires Counting(taken, sleeps, sample.at, intervalMs) && sample.at <= sample.until
    ensures SleepsBetween(taken + [sample], sleeps, intervalMs)
    ensures (taken + [sample])[..|taken|] == taken && (sample.status == Ok ==> AllOk(taken + [sample]))
  {
    forall k: nat | k < |sleeps|
      ensures SleepsAfter(taken + [sample], sleeps, k, intervalMs)
    {
      assert SleepsAfter(taken, sleeps, k, intervalMs);
    }
  }

  lemma LastSample(taken: seq<Taken>, sleeps: seq<Sleep>, sample: Taken, intervalMs: int, iterations: int)
    requires Counting(taken, sleeps, sample.at, intervalMs) && sample.at <= sample.until && |taken| < iterations
    ensures sample.status != Ok || |taken| + 1 == iterations ==>
      CountedRun(sample.status, taken + [sample], sleeps, intervalMs, iterations)
  {
    CountSample(taken, sleeps, sample, intervalMs);
    assert (taken + [sample])[..|taken + [sample]| - 1] == taken;
  }

  lemma CountSleep(taken: seq<Taken>, sleeps: seq<Sleep>, s: Sleep, intervalMs: int)
    requires SleepsBetween(taken, sleeps, intervalMs) && |taken| == |sleeps| + 1 && AllOk(taken)
    requires s.at == taken[|taken| - 1].until && s.requestMs == intervalMs && s.Valid()
    ensures Counting(taken, sleeps + [s], s.Until(), intervalMs)
  {
    forall k: nat | k < |sleeps + [s]|
      ensures SleepsAfter(taken, sleeps + [s], k, intervalMs)
    {
      if k < |sleeps| { assert SleepsAfter(taken, sleeps, k, intervalMs); }
    }
  }

  method RunIterations(clock: Clock, intervalMs: int, iterations: int)
    returns (status: Status, ghost taken: seq<Taken>, ghost sleeps: seq<Sleep>)
    requires intervalMs > 0 && iterations > 0
    modifies clock
    ensures clock.History() == old(clock.History()).Plus(Log([], taken, sleeps))
    ensures CountedRun(status, taken, sleeps, intervalMs, iterations)
  {
    taken, sleeps, status := [], [], Ok;
    var i := 0;
    while i < iterations
      invariant |taken| == i <= iterations && status == Ok
      invariant clock.readings == old(clock.readings)
      invariant clock.taken == old(clock.taken) + taken && clock.sleeps == old(clock.sleeps) + sleeps
      invariant if i < iterations then Counting(taken, sleeps, clock.nanos, intervalMs)
                else CountedRun(Ok, taken, sleeps, intervalMs, iterations)
    {
      ghost var sample;
      status, sample := TakeSample(clock);
      CountSample(taken, sleeps, sample, intervalMs);
      LastSample(taken, sleeps, sample, intervalMs, iterations);
      taken := taken + [sample];
      if status != Ok {
        return;
      }
      if i + 1 < iterations {
        ghost var s := clock.SleepMs(intervalMs);
        CountSleep(taken, sleeps, s, intervalMs);
        sleeps := sleeps + [s];
      }
      i := i + 1;
    }
  }

  // ---------------------------------------------------------------------------------------------
  // The duration mode, as a list of clock readings
  //
  // The first reading gives the start.  Then readings alternate: one at the head of the loop, at an
  // odd position, which admits a sample or ends the run, and one after the sample, at an even
  // position, which sends the loop to sleep or ends the run.

  /** What the program takes for the elapsed time at reading i. */
  function Elapsed(rs: seq<Reading>, i: nat): int
    requires i < |rs|
  {
    rs[i].Ms() - rs[0].Ms()
  }

  /** Whether the time is up at reading i, known to the program or not. */
  predicate TimeIsUp(rs: seq<Reading>, i: nat, durationMs: int)
    requires i < |rs|
  {
    FloorMs(rs[i].at) - FloorMs(rs[0].at) >= durationMs
  }

  /** Why reading i is made: the one before it let the loop go on, and if that was the reading after
      a sample, the loop has slept for the interval or for what was left, if that was less. */
  ghost predicate Follows(rs: seq<Reading>, i: nat, intervalMs: int, durationMs: int)
    requires 0 < i < |rs|
  {
    && rs[i - 1].at <= rs[i].at
    && Elapsed(rs, i - 1) < durationMs
    && (i % 2 == 1 ==> rs[i - 1].readable)
    && (i % 2 == 1 && i > 1 ==>
          rs[i - 1].at + InNanos(Min(intervalMs, durationMs - Elapsed(rs, i - 1))) <= rs[i].at)
  }

  /** The readings of some run. */
  ghost predicate IsTrace(rs: seq<Reading>, intervalMs: int, durationMs: int) {
    && rs != []
    && forall i :: 0 < i < |rs| ==> Follows(rs, i, intervalMs, durationMs)
  }

  /** The reading at the head of the loop that admits sample k. */
  function Head(k: nat): nat {
    2 * k + 1
  }

  /** How many samples the readings admit: one for each head reading, unless the last one ends the run. */
  function SampleCount(rs: seq<Reading>, durationMs: int): nat
    requires rs != []
  {
    var heads := |rs| / 2;
    if |rs| % 2 == 0 && Elapsed(rs, |rs| - 1) >= durationMs then heads - 1 else heads
  }

  /** A head reading fails at a time when the duration is over. */
  ghost predicate LateFailure(rs: seq<Reading>, durationMs: int) {
    exists i: nat :: i % 2 == 1 && i < |rs| && !rs[i].readable && TimeIsUp(rs, i, durationMs)
  }

  lemma {:induction false} TimesGrow(rs: seq<Reading>, i: nat, j: nat, intervalMs: int, durationMs: int)
    requires IsTrace(rs, intervalMs, durationMs) && i <= j < |rs|
    ensures rs[i].at <= rs[j].at
  {
    if i < j {
      TimesGrow(rs, i, j - 1, intervalMs, durationMs);
      assert Follows(rs, j, intervalMs, durationMs);
    }
  }

  lemma StartIsReadable(rs: seq<Reading>, intervalMs: int, durationMs: int)
    requires IsTrace(rs, intervalMs, durationMs) && |rs| > 1
    ensures rs[0].readable
  {
    assert Follows(rs, 1, intervalMs, durationMs);
  }

  /** A sample that the readings admit was admitted by the loop's own test. */
  lemma Admitted(rs: seq<Reading>, k: nat, intervalMs: int, durationMs: int)
    requires IsTrace(rs, intervalMs, durationMs) && k < SampleCount(rs, durationMs)
    ensures Head(k) < |rs| && Elapsed(rs, Head(k)) < durationMs
    ensures k + 1 < SampleCount(rs, durationMs) ==> Head(k) + 2 < |rs|
  {
    if Head(k) + 1 < |rs| {
      assert Follows(rs, Head(k) + 1, intervalMs, durationMs);
    }
  }

  /** Milliseconds are floors, yet what they show to be in time is within the true duration. */
  lemma ElapsedBoundsTrueTime(start: nat, at: nat, durationMs: int)
    requires FloorMs(at) - FloorMs(start) < durationMs
    ensures at < start + InNanos(durationMs)
  {
  }

  lemma AdmittedInTime(rs: seq<Reading>, k: nat, intervalMs: int, durationMs: int)
    requires IsTrace(rs, intervalMs, durationMs) && k < SampleCount(rs, durationMs)
    requires k + 1 < SampleCount(rs, durationMs) || rs[Head(k)].readable || !LateFailure(rs, durationMs)
    ensures Head(k) < |rs| && !TimeIsUp(rs, Head(k), durationMs)
  {
    Admitted(rs, k, intervalMs, durationMs);
    StartIsReadable(rs, intervalMs, durationMs);
    if k + 1 < SampleCount(rs, durationMs) {
      assert Follows(rs, Head(k) + 1, intervalMs, durationMs) && Follows(rs, Head(k) + 2, intervalMs, durationMs);
    }
  }

  lemma LongEnough(before: nat, woken: nat, start: nat, slept: int, intervalMs: int, durationMs: int)
    requires before + InNanos(slept) <= woken && FloorMs(woken) - FloorMs(start) < durationMs
    requires slept == Min(intervalMs, durationMs - (FloorMs(before) - FloorMs(start)))
    ensures before + InNanos(intervalMs) <= woken
  {
  }

  /** After the sleep, shortened or not, a full interval has passed or the time is up. */
  lemma SleptEnough(rs: seq<Reading>, k: nat, intervalMs: int, durationMs: int)
    requires IsTrace(rs, intervalMs, durationMs) && Head(k) + 2 < |rs|
    requires !TimeIsUp(rs, Head(k) + 2, durationMs)
    ensures rs[Head(k)].at + InNanos(intervalMs) <= rs[Head(k) + 2].at
  {
    var i := Head(k) + 2;
    StartIsReadable(rs, intervalMs, durationMs);
    assert Follows(rs, i, intervalMs, durationMs) && Follows(rs, i - 1, intervalMs, durationMs);
    var slept := Min(intervalMs, durationMs - Elapsed(rs, i - 1));
    LongEnough(rs[i - 1].at, rs[i].at, rs[0].at, slept, intervalMs, durationMs);
  }

  /** Sample k starts within the true duration, and an interval after the one before it. */
  ghost predicate WellTimed(rs: seq<Reading>, k: nat, intervalMs: int, durationMs: int) {
    && Head(k) < |rs|
    && rs[0].at <= rs[Head(k)].at < rs[0].at + InNanos(durationMs)
    && (k > 0 ==> rs[Head(k - 1)].at + InNanos(intervalMs) <= rs[Head(k)].at)
  }

  /** Every sample but the last is well timed, and so is the last unless a head reading failed late. */
  lemma SamplesAreWellTimed(rs: seq<Reading>, k: nat, intervalMs: int, durationMs: int)
    requires IsTrace(rs, intervalMs, durationMs) && k < SampleCount(rs, durationMs)
    requires k + 1 < SampleCount(rs, durationMs) || rs[Head(k)].readable || !LateFailure(rs, durationMs)
    ensures WellTimed(rs, k, intervalMs, durationMs)
  {
    AdmittedInTime(rs, k, intervalMs, durationMs);
    TimesGrow(rs, 0, Head(k), intervalMs, durationMs);
    ElapsedBoundsTrueTime(rs[0].at, rs[Head(k)].at, durationMs);
    if k > 0 {
      assert Head(k - 1) + 2 == Head(k);
      SleptEnough(rs, k - 1, intervalMs, durationMs);
    }
  }

  ghost predicate AllInTime(rs: seq<Reading>, durationMs: int)
    requires rs != []
  {
    forall k: nat :: k < SampleCount(rs, durationMs) ==> Head(k) < |rs| && !TimeIsUp(rs, Head(k), durationMs)
  }

  /** Exactly when a sample starts although the time is up: a head reading, whose failure the
      program does not check, fails after the end. */
  lemma LateSampleMeansFailure(rs: seq<Reading>, intervalMs: int, durationMs: int)
    requires IsTrace(rs, intervalMs, durationMs) && durationMs > 0
    ensures AllInTime(rs, durationMs) <==> !LateFailure(rs, durationMs)
  {
    if LateFailure(rs, durationMs) {
      var i: nat :| i % 2 == 1 && i < |rs| && !rs[i].readable && TimeIsUp(rs, i, durationMs);
      var k := i / 2;
      assert Head(k) == i;
      StartIsReadable(rs, intervalMs, durationMs);
      assert Elapsed(rs, i) < durationMs;
      assert k < SampleCount(rs, durationMs);
    } else {
      forall k: nat | k < SampleCount(rs, durationMs)
        ensures Head(k) < |rs| && !TimeIsUp(rs, Head(k), durationMs)
      {
        AdmittedInTime(rs, k, intervalMs, durationMs);
      }
    }
  }

  lemma {:induction false} SampleIsLate(rs: seq<Reading>, k: nat, intervalMs: int, durationMs: int)
    requires forall j: nat :: j <= k ==> WellTimed(rs, j, intervalMs, durationMs)
    ensures Head(k) < |rs| && rs[Head(k)].at >= rs[0].at + InNanos(k * intervalMs)
  {
    assert WellTimed(rs, k, intervalMs, durationMs);
    if k > 0 {
      SampleIsLate(rs, k - 1, intervalMs, durationMs);
      assert k * intervalMs == (k - 1) * intervalMs + intervalMs;
    }
  }

  /** n well-timed samples fit only if n is at most ceil(duration / interval). */
  lemma WellTimedCount(rs: seq<Reading>, n: nat, intervalMs: int, durationMs: int)
    requires intervalMs > 0 && durationMs > 0
    requires forall k: nat :: k < n ==> WellTimed(rs, k, intervalMs, durationMs)
    ensures n <= CeilDiv(durationMs, intervalMs)
  {
    if n > 0 {
      SampleIsLate(rs, n - 1, intervalMs, durationMs);
      assert WellTimed(rs, n - 1, intervalMs, durationMs);
      CeilDivAbove(n, durationMs, intervalMs);
    } else {
      CeilDivAbove(1, durationMs, intervalMs);
    }
  }

  /** At most ceil(duration / interval) samples; one more only if a head reading failed late. */
  lemma SampleBound(rs: seq<Reading>, intervalMs: int, durationMs: int)
    requires intervalMs > 0 && durationMs > 0 && IsTrace(rs, intervalMs, durationMs)
    ensures SampleCount(rs, durationMs)
         <= CeilDiv(durationMs, intervalMs) + if LateFailure(rs, durationMs) then 1 else 0
  {
    var n := SampleCount(rs, durationMs);
    var good := if LateFailure(rs, durationMs) && n > 0 then n - 1 else n;
    forall k: nat | k < good
      ensures WellTimed(rs, k, intervalMs, durationMs)
    {
      SamplesAreWellTimed(rs, k, intervalMs, durationMs);
    }
    WellTimedCount(rs, good, intervalMs, durationMs);
  }

  /** The clock fails at the head of the loop when one sample has used up the whole duration: a
      second one is taken where one is allowed. */
  lemma ExtraSample()
    ensures exists rs :: IsTrace(rs, 1000, 1000) && LateFailure(rs, 1000)
                         && SampleCount(rs, 1000) == CeilDiv(1000, 1000) + 1
  {
    var second := 1_000_000_000;
    var rs := [Reading(0, 0, true), Reading(0, 0, true), Reading(0, 0, true),
               Reading(second, second, false), Reading(second, second, true)];
    forall i | 0 < i < |rs|
      ensures Follows(rs, i, 1000, 1000)
    {
      assert i == 1 || i == 2 || i == 3 || i == 4;
    }
    assert IsTrace(rs, 1000, 1000);
    assert !rs[3].readable && TimeIsUp(rs, 3, 1000);
  }

  /** The number shown with sample k. */
  function Index(rs: seq<Reading>, k: nat, intervalMs: int): int
    requires Head(k) < |rs| && intervalMs > 0
  {
    CDiv(Elapsed(rs, Head(k)), intervalMs) + 1
  }

  lemma IndexCell(elapsed: nat, intervalMs: int)
    requires intervalMs > 0
    ensures (CDiv(elapsed, intervalMs) + 1 - 1) * intervalMs <= elapsed < (CDiv(elapsed, intervalMs) + 1) * intervalMs
  {
    var q := elapsed / intervalMs;
    DivideBounds(elapsed, intervalMs);
    assert (q + 1) * intervalMs == intervalMs * q + intervalMs;
  }

  /** The number is that of the interval of the duration in which the sample starts. */
  lemma IndexInRange(rs: seq<Reading>, k: nat, intervalMs: int, durationMs: int)
    requires intervalMs > 0 && IsTrace(rs, intervalMs, durationMs)
    requires k < SampleCount(rs, durationMs) && rs[Head(k)].readable
    ensures Head(k) < |rs| && 0 <= Elapsed(rs, Head(k))
    ensures 1 <= Index(rs, k, intervalMs) <= CeilDiv(durationMs, intervalMs)
    ensures (Index(rs, k, intervalMs) - 1) * intervalMs <= Elapsed(rs, Head(k)) < Index(rs, k, intervalMs) * intervalMs
  {
    Admitted(rs, k, intervalMs, durationMs);
    StartIsReadable(rs, intervalMs, durationMs);
    TimesGrow(rs, 0, Head(k), intervalMs, durationMs);
    QuotientBounded(Elapsed(rs, Head(k)), intervalMs, durationMs);
    DivideBounds(Elapsed(rs, Head(k)), intervalMs);
    IndexCell(Elapsed(rs, Head(k)), intervalMs);
  }

  /** The numbers shown with samples whose head reading succeeded strictly increase and stay within
      1..ceil(duration / interval). */
  lemma IndicesIncrease(rs: seq<Reading>, j: nat, k: nat, intervalMs: int, durationMs: int)
    requires intervalMs > 0 && IsTrace(rs, intervalMs, durationMs)
    requires j < k < SampleCount(rs, durationMs) && rs[Head(j)].readable && rs[Head(k)].readable
    ensures Head(j) < Head(k) < |rs|
    ensures 1 <= Index(rs, j, intervalMs) < Index(rs, k, intervalMs) <= CeilDiv(durationMs, intervalMs)
  {
    IndexInRange(rs, j, intervalMs, durationMs);
    IndexInRange(rs, k, intervalMs, durationMs);
    SamplesAreWellTimed(rs, k, intervalMs, durationMs);
    TimesGrow(rs, Head(j), Head(k - 1), intervalMs, durationMs);
    StartIsReadable(rs, intervalMs, durationMs);
    QuotientGrows(Elapsed(rs, Head(j)), Elapsed(rs, Head(k)), intervalMs);
  }

  // ---------------------------------------------------------------------------------------------
  // The duration mode

  /** Each sample starts at the head reading that admits it. */
  ghost predicate TakenAtHeads(taken: seq<Taken>, rs: seq<Reading>) {
    forall k: nat :: k < |taken| ==> Head(k) < |rs| && taken[k].at == rs[Head(k)].at
  }

  /** The live display shows one index for each sample that succeeds. */
  ghost predicate ShownAtHeads(shown: seq<int>, rs: seq<Reading>, intervalMs: int)
    requires intervalMs > 0
  {
    forall k: nat :: k < |shown| ==> Head(k) < |rs| && shown[k] == Index(rs, k, intervalMs)
  }

  /** How the run ends: with the reading after which the program stops, or with a failing sample. */
  ghost predicate Ends(status: Status, rs: seq<Reading>, taken: seq<Taken>, shown: seq<int>, durationMs: int)
    requires rs != []
  {
    if |rs| % 2 == 1 && !rs[|rs| - 1].readable then status == InternalError && AllOk(taken) && |shown| == |taken|
    else if Elapsed(rs, |rs| - 1) >= durationMs then status == Ok && AllOk(taken) && |shown| == |taken|
    else
      && taken != [] && status == taken[|taken| - 1].status && (status == IoError || status == ParseError)
      && AllOk(taken[..|taken| - 1]) && |shown| == |taken| - 1
  }

  /** The sleep after reading 2k + 2 is requested for exactly the interval, or for what is left if that
      is less; and readings, samples and sleeps follow each other immediately. */
  ghost predicate SleepsAt(sleeps: seq<Sleep>, k: nat, rs: seq<Reading>, intervalMs: int, durationMs: int)
    requires k < |sleeps|
  {
    var i := 2 * k + 2;
    && i < |rs| && sleeps[k].at == rs[i].at && sleeps[k].Valid()
    && sleeps[k].requestMs == Min(intervalMs, durationMs - Elapsed(rs, i))
    && (i + 1 < |rs| ==> rs[i + 1].asked == sleeps[k].Until())
  }

  ghost predicate Immediate(rs: seq<Reading>, taken: seq<Taken>) {
    && (forall i :: 0 <= i < |rs| ==> rs[i].asked <= rs[i].at)
    && (forall k :: 0 <= k < |taken| ==> taken[k].at <= taken[k].until)
    && (|rs| > 1 ==> rs[1].asked == rs[0].at)
    && forall k: nat :: k < |taken| && 2 * k + 2 < |rs| ==> rs[2 * k + 2].asked == taken[k].until
  }

  ghost predicate Paced(rs: seq<Reading>, taken: seq<Taken>, sleeps: seq<Sleep>, intervalMs: int, durationMs: int) {
    && Immediate(rs, taken)
    && forall k: nat :: k < |sleeps| ==> SleepsAt(sleeps, k, rs, intervalMs, durationMs)
  }

  /** What the duration mode does, as far as readings, samples, sleeps and display tell. */
  ghost predicate TimedRun(status: Status, rs: seq<Reading>, taken: seq<Taken>, sleeps: seq<Sleep>, shown: seq<int>,
                           intervalMs: int, durationMs: int)
    requires intervalMs > 0
  {
    && IsTrace(rs, intervalMs, durationMs)
    && |taken| == SampleCount(rs, durationMs)
    && TakenAtHeads(taken, rs) && ShownAtHeads(shown, rs, intervalMs)
    && Paced(rs, taken, sleeps, intervalMs, durationMs) && |sleeps| == (if |rs| > 1 then |rs| / 2 - 1 else 0)
    && Ends(status, rs, taken, shown, durationMs)
  }

  lemma OneMoreReading(rs: seq<Reading>, r: Reading, intervalMs: int, durationMs: int)
    requires IsTrace(rs, intervalMs, durationMs) && Follows(rs + [r], |rs|, intervalMs, durationMs)
    ensures IsTrace(rs + [r], intervalMs, durationMs)
  {
    forall i | 0 < i < |rs + [r]|
      ensures Follows(rs + [r], i, intervalMs, durationMs)
    {
      if i < |rs| { assert Follows(rs, i, intervalMs, durationMs); }
    }
  }

  /** The state of the run at the top of the loop: the last reading was the first or one after a
      sample, it was readable, and the time was not up. */
  ghost predicate Underway(rs: seq<Reading>, taken: seq<Taken>, sleeps: seq<Sleep>, shown: seq<int>,
                           intervalMs: int, durationMs: int)
    requires intervalMs > 0
  {
    && IsTrace(rs, intervalMs, durationMs) && |rs| % 2 == 1
    && rs[|rs| - 1].readable && Elapsed(rs, |rs| - 1) < durationMs
    && |taken| == |shown| == |sleeps| == |rs| / 2 && AllOk(taken)
    && TakenAtHeads(taken, rs) && ShownAtHeads(shown, rs, intervalMs)
    && Paced(rs, taken, sleeps, intervalMs, durationMs)
  }

  /** When the last reading is made or the sleep after it is over. */
  function AwakeAt(rs: seq<Reading>, sleeps: seq<Sleep>): nat
    requires rs != []
  {
    if sleeps == [] then rs[|rs| - 1].at else sleeps[|sleeps| - 1].Until()
  }

  function WithShown(shown: seq<int>, rs: seq<Reading>, intervalMs: int): seq<int>
    requires rs != [] && intervalMs > 0
  {
    shown + [CDiv(Elapsed(rs, |rs| - 1), intervalMs) + 1]
  }

  /** The state of the run after a head reading that has let the loop go on. */
  ghost predicate AtHead(rs: seq<Reading>, taken: seq<Taken>, sleeps: seq<Sleep>, shown: seq<int>,
                         intervalMs: int, durationMs: int)
    requires intervalMs > 0
  {
    && IsTrace(rs, intervalMs, durationMs) && |rs| % 2 == 0 && Elapsed(rs, |rs| - 1) < durationMs
    && |taken| == |shown| == |sleeps| == |rs| / 2 - 1 && AllOk(taken)
    && TakenAtHeads(taken, rs) && ShownAtHeads(shown, rs, intervalMs)
    && Paced(rs, taken, sleeps, intervalMs, durationMs)
  }

  lemma LongerRun(rs: seq<Reading>, r: Reading, taken: seq<Taken>, shown: seq<int>, intervalMs: int)
    requires intervalMs > 0 && TakenAtHeads(taken, rs) && ShownAtHeads(shown, rs, intervalMs)
    ensures TakenAtHeads(taken, rs + [r]) && ShownAtHeads(shown, rs + [r], intervalMs)
  {
    assert forall i :: 0 <= i < |rs| ==> (rs + [r])[i] == rs[i];
    assert forall k: nat :: k < |shown| ==> Index(rs + [r], k, intervalMs) == Index(rs, k, intervalMs);
  }

  /** A head reading that is made as soon as the last sleep is over keeps the pace. */
  lemma PacedHead(rs: seq<Reading>, r: Reading, taken: seq<Taken>, sleeps: seq<Sleep>, intervalMs: int, durationMs: int)
    requires Paced(rs, taken, sleeps, intervalMs, durationMs) && |rs| % 2 == 1 && |taken| == |sleeps| == |rs| / 2
    requires r.asked == AwakeAt(rs, sleeps) <= r.at
    ensures Paced(rs + [r], taken, sleeps, intervalMs, durationMs)
  {
    var rs' := rs + [r];
    forall k: nat | k < |sleeps|
      ensures SleepsAt(sleeps, k, rs', intervalMs, durationMs)
    {
      assert SleepsAt(sleeps, k, rs, intervalMs, durationMs);
    }
  }

  lemma PacedAfter(rs: seq<Reading>, sample: Taken, r: Reading, taken: seq<Taken>, sleeps: seq<Sleep>,
                   intervalMs: int, durationMs: int)
    requires Paced(rs, taken, sleeps, intervalMs, durationMs)
    requires |rs| % 2 == 0 && rs != [] && |taken| == |sleeps| == |rs| / 2 - 1
    requires sample.at <= sample.until == r.asked <= r.at
    ensures Paced(rs + [r], taken + [sample], sleeps, intervalMs, durationMs)
  {
    var rs' := rs + [r];
    forall k: nat | k < |sleeps|
      ensures SleepsAt(sleeps, k, rs', intervalMs, durationMs)
    {
      assert SleepsAt(sleeps, k, rs, intervalMs, durationMs);
    }
  }

  lemma PacedSleep(rs: seq<Reading>, taken: seq<Taken>, sleeps: seq<Sleep>, s: Sleep, intervalMs: int, durationMs: int)
    requires Paced(rs, taken, sleeps, intervalMs, durationMs)
    requires |rs| % 2 == 1 && |rs| > 1 && |sleeps| == |rs| / 2 - 1
    requires s.at == rs[|rs| - 1].at && s.Valid()
    requires s.requestMs == Min(intervalMs, durationMs - Elapsed(rs, |rs| - 1))
    ensures Paced(rs, taken, sleeps + [s], intervalMs, durationMs)
  {
    forall k: nat | k < |sleeps + [s]|
      ensures SleepsAt(sleeps + [s], k, rs, intervalMs, durationMs)
    {
      if k < |sleeps| { assert SleepsAt(sleeps, k, rs, intervalMs, durationMs); }
    }
  }

  lemma AwakeIsLate(rs: seq<Reading>, taken: seq<Taken>, sleeps: seq<Sleep>, shown: seq<int>,
                    intervalMs: int, durationMs: int)
    requires intervalMs > 0 && Underway(rs, taken, sleeps, shown, intervalMs, durationMs)
    ensures rs[|rs| - 1].at <= AwakeAt(rs, sleeps)
    ensures |rs| > 1 ==>
      rs[|rs| - 1].at + InNanos(Min(intervalMs, durationMs - Elapsed(rs, |rs| - 1))) <= AwakeAt(rs, sleeps)
  {
    if |rs| > 1 {
      var k := |sleeps| - 1;
      assert SleepsAt(sleeps, k, rs, intervalMs, durationMs);
      SleepLasts(sleeps[k]);
    }
  }

  lemma HeadRead(rs: seq<Reading>, r: Reading, taken: seq<Taken>, sleeps: seq<Sleep>, shown: seq<int>,
                 intervalMs: int, durationMs: int)
    requires intervalMs > 0 && Underway(rs, taken, sleeps, shown, intervalMs, durationMs)
    requires r.asked == AwakeAt(rs, sleeps) <= r.at
    ensures if Elapsed(rs + [r], |rs|) >= durationMs
            then TimedRun(Ok, rs + [r], taken, sleeps, shown, intervalMs, durationMs)
            else AtHead(rs + [r], taken, sleeps, shown, intervalMs, durationMs)
  {
    AwakeIsLate(rs, taken, sleeps, shown, intervalMs, durationMs);
    OneMoreReading(rs, r, intervalMs, durationMs);
    LongerRun(rs, r, taken, shown, intervalMs);
    PacedHead(rs, r, taken, sleeps, intervalMs, durationMs);
  }

  lemma SampleFailed(rs: seq<Reading>, taken: seq<Taken>, sample: Taken, sleeps: seq<Sleep>, shown: seq<int>,
                     intervalMs: int, durationMs: int)
    requires intervalMs > 0 && AtHead(rs, taken, sleeps, shown, intervalMs, durationMs)
    requires sample.at == rs[|rs| - 1].at <= sample.until && (sample.status == IoError || sample.status == ParseError)
    ensures TimedRun(sample.status, rs, taken + [sample], sleeps, shown, intervalMs, durationMs)
  {
    assert (taken + [sample])[..|taken + [sample]| - 1] == taken;
    assert Head(|taken|) == |rs| - 1;
  }

  lemma AfterRead(rs: seq<Reading>, r: Reading, taken: seq<Taken>, sample: Taken, sleeps: seq<Sleep>, shown: seq<int>,
                  intervalMs: int, durationMs: int)
    requires intervalMs > 0 && AtHead(rs, taken, sleeps, shown, intervalMs, durationMs) && sample.status == Ok
    requires rs[|rs| - 1].at == sample.at <= sample.until == r.asked <= r.at
    ensures var rs', taken', shown' := rs + [r], taken + [sample], WithShown(shown, rs, intervalMs);
            if !r.readable then TimedRun(InternalError, rs', taken', sleeps, shown', intervalMs, durationMs)
            else if Elapsed(rs', |rs|) >= durationMs
            then TimedRun(Ok, rs', taken', sleeps, shown', intervalMs, durationMs)
            else BeforeSleep(rs', taken', sleeps, shown', intervalMs, durationMs)
  {
    assert Head(|taken|) == |rs| - 1;
    OneMoreReading(rs, r, intervalMs, durationMs);
    LongerRun(rs, r, taken + [sample], WithShown(shown, rs, intervalMs), intervalMs);
    PacedAfter(rs, sample, r, taken, sleeps, intervalMs, durationMs);
  }

  /** The state of the run before the sleep after a sample. */
  ghost predicate BeforeSleep(rs: seq<Reading>, taken: seq<Taken>, sleeps: seq<Sleep>, shown: seq<int>,
                              intervalMs: int, durationMs: int)
    requires intervalMs > 0
  {
    && IsTrace(rs, intervalMs, durationMs) && |rs| % 2 == 1 && |rs| > 1
    && rs[|rs| - 1].readable && Elapsed(rs, |rs| - 1) < durationMs
    && |taken| == |shown| == |rs| / 2 == |sleeps| + 1 && AllOk(taken)
    && TakenAtHeads(taken, rs) && ShownAtHeads(shown, rs, intervalMs)
    && Paced(rs, taken, sleeps, intervalMs, durationMs)
  }

  lemma SleepOver(rs: seq<Reading>, taken: seq<Taken>, sleeps: seq<Sleep>, s: Sleep, shown: seq<int>,
                  intervalMs: int, durationMs: int)
    requires intervalMs > 0 && BeforeSleep(rs, taken, sleeps, shown, intervalMs, durationMs)
    requires s.at == rs[|rs| - 1].at && s.Valid()
    requires s.requestMs == Min(intervalMs, durationMs - Elapsed(rs, |rs| - 1))
    ensures Underway(rs, taken, sleeps + [s], shown, intervalMs, durationMs)
    ensures AwakeAt(rs, sleeps + [s]) == s.Until()
  {
    PacedSleep(rs, taken, sleeps, s, intervalMs, durationMs);
  }

  /** The sleep after a sample: the interval, or what is left of the duration if that is less. */
  method Pause(clock: Clock, intervalMs: int, remainingMs: int) returns (ghost s: Sleep)
    requires intervalMs > 0 && remainingMs > 0
    modifies clock`nanos, clock`interruptions, clock`naps, clock`sleeps
    ensures clock.sleeps == old(clock.sleeps) + [s] && clock.naps == old(clock.naps) + s.naps
    ensures s.at == old(clock.nanos) && s.requestMs == Min(intervalMs, remainingMs) && s.Valid()
    ensures clock.nanos == s.Until() >= old(clock.nanos) + InNanos(s.requestMs)
  {
    var sleepDuration := intervalMs;
    if remainingMs < sleepDuration {
      sleepDuration := remainingMs;
    }
    s := clock.SleepMs(sleepDuration);
  }

  /** The rest of the loop's body after a sample that has succeeded. */
  method AfterSample(clock: Clock, intervalMs: int, durationMs: int, startMs: int, shown: seq<int>,
                     ghost rs: seq<Reading>, ghost taken: seq<Taken>, ghost sample: Taken, ghost sleeps: seq<Sleep>,
                     ghost before: Log)
    returns (stop: bool, status: Status, ghost rs': seq<Reading>, ghost sleeps': seq<Sleep>)
    requires intervalMs > 0 && shown != []
    requires AtHead(rs, taken, sleeps, shown[..|shown| - 1], intervalMs, durationMs) && startMs == rs[0].Ms()
    requires shown == WithShown(shown[..|shown| - 1], rs, intervalMs)
    requires sample.at == rs[|rs| - 1].at <= sample.until == clock.nanos && sample.status == Ok
    requires clock.History() == before.Plus(Log(rs, taken + [sample], sleeps))
    modifies clock`nanos, clock`interruptions, clock`readings, clock`naps, clock`sleeps
    ensures clock.History() == before.Plus(Log(rs', taken + [sample], sleeps'))
    ensures rs' != [] && rs'[0] == rs[0]
    ensures if stop then TimedRun(status, rs', taken + [sample], sleeps', shown, intervalMs, durationMs)
            else Underway(rs', taken + [sample], sleeps', shown, intervalMs, durationMs)
    ensures !stop ==> clock.nanos == AwakeAt(rs', sleeps')
    ensures !stop ==> FloorMs(old(clock.nanos)) - startMs < durationMs
    ensures !stop ==> FloorMs(old(clock.nanos)) < FloorMs(clock.nanos)
  {
    sleeps' := sleeps;
    var afterSample;
    ghost var r;
    afterSample, r := clock.NowMs();
    AfterRead(rs, r, taken, sample, sleeps, shown[..|shown| - 1], intervalMs, durationMs);
    rs' := rs + [r];
    if afterSample < 0 {
      return true, InternalError, rs', sleeps';
    }
    var remaining := durationMs - (afterSample - startMs);
    if remaining <= 0 {
      return true, Ok, rs', sleeps';
    }
    ghost var s := Pause(clock, intervalMs, remaining);
    SleepOver(rs', taken + [sample], sleeps, s, shown, intervalMs, durationMs);
    sleeps' := sleeps + [s];
    stop, status := false, Ok;
  }

  /** The rest of the loop's body after a head reading that lets it go on. */
  method TimedSample(clock: Clock, intervalMs: int, durationMs: int, startMs: int, elapsed: int, shown: seq<int>,
                     ghost rs: seq<Reading>, ghost taken: seq<Taken>, ghost sleeps: seq<Sleep>, ghost before: Log)
    returns (stop: bool, status: Status, shown': seq<int>,
             ghost rs': seq<Reading>, ghost taken': seq<Taken>, ghost sleeps': seq<Sleep>)
    requires intervalMs > 0 && AtHead(rs, taken, sleeps, shown, intervalMs, durationMs)
    requires startMs == rs[0].Ms() && elapsed == Elapsed(rs, |rs| - 1) && clock.nanos == rs[|rs| - 1].at
    requires clock.History() == before.Plus(Log(rs, taken, sleeps))
    modifies clock
    ensures clock.History() == before.Plus(Log(rs', taken', sleeps'))
    ensures rs' != [] && rs'[0] == rs[0]
    ensures if stop then TimedRun(status, rs', taken', sleeps', shown', intervalMs, durationMs)
            else Underway(rs', taken', sleeps', shown', intervalMs, durationMs)
    ensures !stop ==> clock.nanos == AwakeAt(rs', sleeps')
    ensures !stop ==> FloorMs(old(clock.nanos)) - startMs < durationMs
    ensures !stop ==> FloorMs(old(clock.nanos)) < FloorMs(clock.nanos)
  {
    ghost var sample;
    status, sample := TakeSample(clock);
    taken' := taken + [sample];
    if status != Ok {
      SampleFailed(rs, taken, sample, sleeps, shown, intervalMs, durationMs);
      return true, status, shown, rs, taken', sleeps;
    }
    shown' := shown + [CDiv(elapsed, intervalMs) + 1];
    assert shown'[..|shown'| - 1] == shown;
    stop, status, rs', sleeps' :=
      AfterSample(clock, intervalMs, durationMs, startMs, shown', rs, taken, sample, sleeps, before);
  }

  /** The duration mode. */
  method RunDuration(clock: Clock, intervalMs: int, durationMs: int)
    returns (status: Status, shown: seq<int>, ghost rs: seq<Reading>, ghost taken: seq<Taken>, ghost sleeps: seq<Sleep>)
    requires intervalMs > 0 && durationMs > 0
    modifies clock
    ensures clock.History() == old(clock.History()).Plus(Log(rs, taken, sleeps))
    ensures TimedRun(status, rs, taken, sleeps, shown, intervalMs, durationMs)
  {
    status, shown, taken, sleeps := Ok, [], [], [];
    var startMs;
    ghost var r;
    startMs, r := clock.NowMs();
    rs := [r];
    if startMs < 0 {
      status := InternalError;
      return;
    }
    while true
      invariant clock.History() == old(clock.History()).Plus(Log(rs, taken, sleeps))
      invariant Underway(rs, taken, sleeps, shown, intervalMs, durationMs) && startMs == rs[0].Ms()
      invariant clock.nanos == AwakeAt(rs, sleeps)
      decreases startMs + durationMs - FloorMs(clock.nanos)
    {
      var now;
      now, r := clock.NowMs();
      HeadRead(rs, r, taken, sleeps, shown, intervalMs, durationMs);
      rs := rs + [r];
      var elapsed := now - startMs;
      if elapsed >= durationMs {
        return Ok, shown, rs, taken, sleeps;
      }
      var stop;
      stop, status, shown, rs, taken, sleeps :=
        TimedSample(clock, intervalMs, durationMs, startMs, elapsed, shown, rs, taken, sleeps, old(clock.History()));
      if stop {
        return;
      }
    }
  }

  /** Within the duration counted from the start. */
  ghost predicate StartInTime(taken: seq<Taken>, start: nat, durationMs: int) {
    forall k :: 0 <= k < |taken| ==> start <= taken[k].at < start + InNanos(durationMs)
  }

  /** Unless a head reading fails late, the samples of a run are spaced by the interval and start
      within the duration. */
  lemma RunIsWellTimed(status: Status, rs: seq<Reading>, taken: seq<Taken>, sleeps: seq<Sleep>, shown: seq<int>,
                       intervalMs: int, durationMs: int)
    requires intervalMs > 0 && durationMs > 0 && TimedRun(status, rs, taken, sleeps, shown, intervalMs, durationMs)
    requires !LateFailure(rs, durationMs)
    ensures Spaced(taken, intervalMs) && StartInTime(taken, rs[0].at, durationMs)
  {
    forall k: nat | k < |taken|
      ensures rs[0].at <= taken[k].at < rs[0].at + InNanos(durationMs)
      ensures k > 0 ==> taken[k - 1].at + InNanos(intervalMs) <= taken[k].at
    {
      SamplesAreWellTimed(rs, k, intervalMs, durationMs);
    }
  }

  /** What the status of a run means: Ok that the time is up, an internal error that the last reading
      failed. */
  lemma RunStatus(status: Status, rs: seq<Reading>, taken: seq<Taken>, sleeps: seq<Sleep>, shown: seq<int>,
                  intervalMs: int, durationMs: int)
    requires intervalMs > 0 && durationMs > 0 && TimedRun(status, rs, taken, sleeps, shown, intervalMs, durationMs)
    ensures status == Ok <==> rs[|rs| - 1].readable && TimeIsUp(rs, |rs| - 1, durationMs)
    ensures status == InternalError <==> |rs| % 2 == 1 && !rs[|rs| - 1].readable
  {
    if |rs| > 1 {
      StartIsReadable(rs, intervalMs, durationMs);
    }
    if |rs| % 2 == 0 {
      assert Head(|rs| / 2 - 1) == |rs| - 1;
    }
  }

  // ---------------------------------------------------------------------------------------------
  // Pace: no sleep is longer than asked for, except by its own overrun

  /** What the program and the system add to the sleep between samples k and k + 1: taking the
      sample, two readings of the clock, and the overrun of the sleep. */
  function Cost(rs: seq<Reading>, taken: seq<Taken>, sleeps: seq<Sleep>, k: nat): int
    requires k < |taken| && k < |sleeps| && Head(k) + 2 < |rs|
  {
    var i := Head(k);
    (taken[k].until - taken[k].at) + (rs[i + 1].at - rs[i + 1].asked) + sleeps[k].Late()
    + (rs[i + 2].at - rs[i + 2].asked)
  }

  /** The next head reading is exactly the shorter of the interval and the time left, and these costs,
      after sample k. */
  lemma NextHead(status: Status, rs: seq<Reading>, taken: seq<Taken>, sleeps: seq<Sleep>, shown: seq<int>,
                 intervalMs: int, durationMs: int, k: nat)
    requires intervalMs > 0 && durationMs > 0 && TimedRun(status, rs, taken, sleeps, shown, intervalMs, durationMs)
    requires Head(k) + 2 < |rs|
    ensures k < |taken| && k < |sleeps|
    ensures rs[Head(k) + 2].at - taken[k].at
         == InNanos(Min(intervalMs, durationMs - Elapsed(rs, Head(k) + 1))) + Cost(rs, taken, sleeps, k)
    ensures taken[k].at == rs[Head(k)].at && Cost(rs, taken, sleeps, k) >= 0
  {
    assert Follows(rs, Head(k) + 1, intervalMs, durationMs);
    assert k < |taken| && k < |sleeps|;
    assert SleepsAt(sleeps, k, rs, intervalMs, durationMs);
    SleepLasts(sleeps[k]);
  }

  /** Consecutive samples start at most one interval and these costs apart. */
  lemma GapIsBounded(status: Status, rs: seq<Reading>, taken: seq<Taken>, sleeps: seq<Sleep>, shown: seq<int>,
                     intervalMs: int, durationMs: int, k: nat)
    requires intervalMs > 0 && durationMs > 0 && TimedRun(status, rs, taken, sleeps, shown, intervalMs, durationMs)
    requires k + 1 < |taken|
    ensures k < |sleeps| && Head(k) + 2 < |rs|
    ensures taken[k + 1].at - taken[k].at <= InNanos(intervalMs) + Cost(rs, taken, sleeps, k)
  {
    Admitted(rs, k, intervalMs, durationMs);
    assert Head(k + 1) == Head(k) + 2;
    NextHead(status, rs, taken, sleeps, shown, intervalMs, durationMs, k);
  }

  /** Nothing but the sleeps takes time, every reading succeeds, and so does every sample. */
  ghost predicate Ideal(rs: seq<Reading>, taken: seq<Taken>, sleeps: seq<Sleep>) {
    && (forall i :: 0 <= i < |rs| ==> rs[i].readable && rs[i].at == rs[i].asked)
    && (forall k :: 0 <= k < |taken| ==> taken[k].until == taken[k].at)
    && (forall k :: 0 <= k < |sleeps| ==> sleeps[k].Late() == 0)
    && AllOk(taken)
  }

  lemma GridStep(start: nat, at: nat, j: nat, intervalMs: int, durationMs: int)
    requires intervalMs > 0 && at == start + InNanos(Min(j * intervalMs, durationMs))
    requires FloorMs(at) - FloorMs(start) < durationMs
    ensures FloorMs(at) - FloorMs(start) == j * intervalMs < durationMs
    ensures at + InNanos(Min(intervalMs, durationMs - j * intervalMs))
         == start + InNanos(Min((j + 1) * intervalMs, durationMs))
  {
    assert (j + 1) * intervalMs == j * intervalMs + intervalMs;
  }

  lemma IdealStep(status: Status, rs: seq<Reading>, taken: seq<Taken>, sleeps: seq<Sleep>, shown: seq<int>,
                  intervalMs: int, durationMs: int, k: nat)
    requires intervalMs > 0 && durationMs > 0 && TimedRun(status, rs, taken, sleeps, shown, intervalMs, durationMs)
    requires Ideal(rs, taken, sleeps) && Head(k) + 2 < |rs|
    ensures rs[Head(k) + 2].at == rs[Head(k)].at + InNanos(Min(intervalMs, durationMs - Elapsed(rs, Head(k))))
  {
    NextHead(status, rs, taken, sleeps, shown, intervalMs, durationMs, k);
    assert rs[2 * k + 2].asked == taken[k].until;
    assert rs[Head(k) + 1].at == rs[Head(k)].at;
  }

  lemma {:induction false} HeadOnGrid(status: Status, rs: seq<Reading>, taken: seq<Taken>, sleeps: seq<Sleep>,
                                      shown: seq<int>, intervalMs: int, durationMs: int, j: nat)
    requires intervalMs > 0 && durationMs > 0 && TimedRun(status, rs, taken, sleeps, shown, intervalMs, durationMs)
    requires Ideal(rs, taken, sleeps) && Head(j) < |rs|
    ensures rs[Head(j)].at == rs[0].at + InNanos(Min(j * intervalMs, durationMs))
    ensures Head(j) + 1 < |rs| ==> Elapsed(rs, Head(j)) == j * intervalMs < durationMs
  {
    if j > 0 {
      HeadOnGrid(status, rs, taken, sleeps, shown, intervalMs, durationMs, j - 1);
      IdealStep(status, rs, taken, sleeps, shown, intervalMs, durationMs, j - 1);
      GridStep(rs[0].at, rs[Head(j - 1)].at, j - 1, intervalMs, durationMs);
    }
    if Head(j) + 1 < |rs| {
      assert Follows(rs, Head(j) + 1, intervalMs, durationMs);
      GridStep(rs[0].at, rs[Head(j)].at, j, intervalMs, durationMs);
    }
  }

  /** In an ideal run there are exactly ceil(duration / interval) samples, sample k starts k intervals
      after the start, and the run ends with Ok when the duration is over. */
  lemma IdealRun(status: Status, rs: seq<Reading>, taken: seq<Taken>, sleeps: seq<Sleep>, shown: seq<int>,
                 intervalMs: int, durationMs: int)
    requires intervalMs > 0 && durationMs > 0 && TimedRun(status, rs, taken, sleeps, shown, intervalMs, durationMs)
    requires Ideal(rs, taken, sleeps)
    ensures status == Ok && |taken| == CeilDiv(durationMs, intervalMs)
    ensures rs[|rs| - 1].at == rs[0].at + InNanos(durationMs)
    ensures forall k :: 0 <= k < |taken| ==> taken[k].at == rs[0].at + InNanos(k * intervalMs)
  {
    IdealEnd(status, rs, taken, sleeps, shown, intervalMs, durationMs);
    var n := |taken|;
    forall k: nat | k < n
      ensures taken[k].at == rs[0].at + InNanos(k * intervalMs) && k * intervalMs < durationMs
    {
      HeadOnGrid(status, rs, taken, sleeps, shown, intervalMs, durationMs, k);
    }
    HeadOnGrid(status, rs, taken, sleeps, shown, intervalMs, durationMs, n);
    CeilDivAbove(n, durationMs, intervalMs);
    CeilDivBelow(durationMs, intervalMs, n);
  }

  lemma AfterIsInTime(status: Status, rs: seq<Reading>, taken: seq<Taken>, sleeps: seq<Sleep>, shown: seq<int>,
                      intervalMs: int, durationMs: int, k: nat)
    requires intervalMs > 0 && durationMs > 0 && TimedRun(status, rs, taken, sleeps, shown, intervalMs, durationMs)
    requires Ideal(rs, taken, sleeps) && Head(k) + 1 < |rs|
    ensures Elapsed(rs, Head(k) + 1) < durationMs
  {
    HeadOnGrid(status, rs, taken, sleeps, shown, intervalMs, durationMs, k);
    assert k < |taken| && rs[2 * k + 2].asked == taken[k].until;
  }

  /** It ends at a head reading. */
  lemma IdealEnd(status: Status, rs: seq<Reading>, taken: seq<Taken>, sleeps: seq<Sleep>, shown: seq<int>,
                 intervalMs: int, durationMs: int)
    requires intervalMs > 0 && durationMs > 0 && TimedRun(status, rs, taken, sleeps, shown, intervalMs, durationMs)
    requires Ideal(rs, taken, sleeps)
    ensures status == Ok && |taken| > 0 && |rs| == Head(|taken|) + 1
    ensures Elapsed(rs, |rs| - 1) >= durationMs
  {
    assert Elapsed(rs, |rs| - 1) >= durationMs;
    HeadOnGrid(status, rs, taken, sleeps, shown, intervalMs, durationMs, 0);
    if |rs| % 2 == 1 {
      AfterIsInTime(status, rs, taken, sleeps, shown, intervalMs, durationMs, |rs| / 2 - 1);
    }
  }
}
