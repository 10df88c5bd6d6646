/** The CPU usage tracker of monitor.c: differences of wrapping 64-bit sums over a run of samples. */
module CpuUsage {
  import opened Common

  const FIELD_COUNT := 10
  const IDLE := 3
  const IOWAIT := 4

  datatype Prev = Prev(total: nat, idle: nat)

  function TotalOf(fields: seq<nat>): nat {
    Wrap(Sum(fields))
  }

  function IdleOf(fields: seq<nat>): nat
    requires |fields| == FIELD_COUNT
  {
    Wrap(fields[IDLE] + fields[IOWAIT])
  }

  function PrevOf(fields: seq<nat>): Prev
    requires |fields| == FIELD_COUNT
  {
    Prev(TotalOf(fields), IdleOf(fields))
  }

  /** A difference in unsigned long long. */
  function Delta(now: nat, before: nat): nat {
    Wrap(now - before)
  }

  /** A part of a total in percent; 0 of an empty total. */
  function Share(part: int, total: int): real {
    if total == 0 then 0.0 else part as real * 100.0 / total as real
  }

  /** The quotient before the two clamps. */
  function RawUsage(prev: Prev, now: Prev): real
    requires Delta(now.total, prev.total) != 0
  {
    var totalDelta, idleDelta := Delta(now.total, prev.total), Delta(now.idle, prev.idle);
    Share(Wrap(totalDelta - idleDelta), totalDelta)
  }

  function Clamped(x: real): real {
    if x < 0.0 then 0.0 else if x > 100.0 then 100.0 else x
  }

  function Usage(prev: Option<Prev>, now: Prev): real {
    if prev.None? || Delta(now.total, prev.value.total) == 0 then 0.0 else Clamped(RawUsage(prev.value, now))
  }

  /** The scanned values, missing ones replaced by 0. */
  function Padded(scanned: seq<nat>): (fields: seq<nat>)
    ensures |fields| == FIELD_COUNT
  {
    seq(FIELD_COUNT, i => if 0 <= i < |scanned| then scanned[i] else 0)
  }

  class CpuTracker {
    var prevIdle: nat
    var prevTotal: nat
    var hasPrev: bool

    constructor ()
      ensures Last() == None
    {
      prevIdle, prevTotal, hasPrev := 0, 0, false;
    }

    function Last(): Option<Prev>
      reads this
    {
      if hasPrev then Some(Prev(prevTotal, prevIdle)) else None
    }

    /** monitor_read_cpu_usage; scanned is what fscanf read, None if the file could not be opened. */
    method ReadCpuUsage(scanned: Option<seq<nat>>, out: Cell<real>) returns (status: Status)
      modifies this, out
      ensures status == if scanned.None? then IoError else if |scanned.value| < 4 then ParseError else Ok
      ensures status != Ok ==> Last() == old(Last()) && out.value == old(out.value)
      ensures status == Ok ==>
        var now := PrevOf(Padded(scanned.value));
        Last() == Some(now) && out.value == Usage(old(Last()), now)
    {
      if scanned.None? {
        return IoError;
      }
      if |scanned.value| < 4 {
        return ParseError;
      }
      var fields := Padded(scanned.value);
      var total: nat := 0;
      for i := 0 to FIELD_COUNT
        invariant total == TotalOf(fields[..i])
      {
        assert fields[..i + 1][..i] == fields[..i];
        total := Wrap(total + fields[i]);
      }
      assert fields[..FIELD_COUNT] == fields;
      var idle := Wrap(fields[IDLE] + fields[IOWAIT]);
      if !hasPrev {
        prevTotal, prevIdle, hasPrev := total, idle, true;
        out.value := 0.0;
        return Ok;
      }
      var totalDelta: int := Wrap(total - prevTotal);
      var idleDelta: int := Wrap(idle - prevIdle);
      prevTotal, prevIdle := total, idle;
      if totalDelta == 0 {
        out.value := 0.0;
        return Ok;
      }
      out.value := Clamped(Wrap(totalDelta - idleDelta) as real * 100.0 / totalDelta as real);
      return Ok;
    }
  }

  // ---------------------------------------------------------------------------------------------
  // Against the true, unbounded counters

  /** The counters as they would be without wrapping, one per field. */
  type Counters = c: seq<nat> | |c| == FIELD_COUNT witness seq(FIELD_COUNT, _ => 0)

  /** What /proc/stat shows of them. */
  function Visible(c: Counters): (v: Counters) {
    seq(FIELD_COUNT, i requires 0 <= i < FIELD_COUNT => Wrap(c[i]))
  }

  function TrueIdle(c: Counters): nat {
    c[IDLE] + c[IOWAIT]
  }

  function TrueBusy(c: Counters): int {
    Sum(c) - TrueIdle(c)
  }

  /** No field decreases, and the total grows by less than 2^64. */
  ghost predicate Grows(c: Counters, c': Counters) {
    && (forall i :: 0 <= i < FIELD_COUNT ==> c[i] <= c'[i])
    && Sum(c') - Sum(c) < 0x1_0000_0000_0000_0000
  }

  lemma WrapAddLeft(a: int, b: int)
    ensures Wrap(Wrap(a) + b) == Wrap(a + b)
  {
  }

  lemma WrapAdd(a: int, b: int)
    ensures Wrap(Wrap(a) + b) == Wrap(a + b)
    ensures Wrap(a + Wrap(b)) == Wrap(a + b)
  {
    WrapAddLeft(a, b);
    WrapAddLeft(b, a);
    assert Wrap(b) + a == a + Wrap(b);
  }

  lemma WrapDifference(a: int, b: int)
    ensures Wrap(Wrap(a) - Wrap(b)) == Wrap(a - b)
  {
  }

  lemma {:induction false} SumOfWrapped(s: seq<nat>, v: seq<nat>)
    requires |s| == |v| && forall i :: 0 <= i < |s| ==> v[i] == Wrap(s[i])
    ensures Wrap(Sum(v)) == Wrap(Sum(s))
  {
    if s != [] {
      var n := |s| - 1;
      SumOfWrapped(s[..n], v[..n]);
      WrapAdd(Sum(v[..n]), s[n]);
      WrapAdd(Sum(v[..n]), v[n]);
      WrapAdd(Sum(s[..n]), s[n]);
    }
  }

  lemma {:induction false} SumOfDifferences(s: seq<nat>, s': seq<nat>)
    requires |s| == |s'| && forall i :: 0 <= i < |s| ==> s[i] <= s'[i]
    ensures Sum(s') >= Sum(s)
    ensures forall i, j :: 0 <= i < j < |s| ==> Sum(s') - Sum(s) >= (s'[i] - s[i]) + (s'[j] - s[j])
    ensures forall i :: 0 <= i < |s| ==> Sum(s') - Sum(s) >= s'[i] - s[i]
  {
    if s != [] {
      SumOfDifferences(s[..|s| - 1], s'[..|s| - 1]);
    }
  }

  lemma DeltaIsTrue(now: nat, before: nat, a: int, b: int)
    requires now == Wrap(a) && before == Wrap(b) && 0 <= a - b < TWO_64
    ensures Delta(now, before) == a - b
  {
    WrapDifference(a, b);
    WrapSmall(a - b);
  }

  lemma TotalIsTrue(c: Counters)
    ensures TotalOf(Visible(c)) == Wrap(Sum(c))
  {
    SumOfWrapped(c, Visible(c));
  }

  lemma IdleIsTrue(c: Counters)
    ensures IdleOf(Visible(c)) == Wrap(TrueIdle(c))
  {
    WrapAdd(c[IDLE], Visible(c)[IOWAIT]);
    WrapAdd(c[IDLE], c[IOWAIT]);
  }

  lemma TrueGrowth(c: Counters, c': Counters)
    requires Grows(c, c')
    ensures 0 <= Sum(c) && 0 <= TrueIdle(c') - TrueIdle(c) <= Sum(c') - Sum(c) < TWO_64
  {
    SumOfDifferences(c, c');
    SumNonNegative(c);
  }

  /** Even when fields and sums wrap, the two deltas are the true growths. */
  lemma TotalDeltaIsTrue(c: Counters, c': Counters)
    requires Grows(c, c')
    ensures Delta(PrevOf(Visible(c')).total, PrevOf(Visible(c)).total) == Sum(c') - Sum(c)
  {
    TrueGrowth(c, c');
    TotalIsTrue(c);
    TotalIsTrue(c');
    DeltaIsTrue(TotalOf(Visible(c')), TotalOf(Visible(c)), Sum(c'), Sum(c));
  }

  lemma IdleDeltaIsTrue(c: Counters, c': Counters)
    requires Grows(c, c')
    ensures Delta(PrevOf(Visible(c')).idle, PrevOf(Visible(c)).idle) == TrueIdle(c') - TrueIdle(c)
  {
    TrueGrowth(c, c');
    IdleIsTrue(c);
    IdleIsTrue(c');
    DeltaIsTrue(IdleOf(Visible(c')), IdleOf(Visible(c)), TrueIdle(c'), TrueIdle(c));
  }

  lemma WrapSmall(n: nat)
    requires n < TWO_64
    ensures Wrap(n) == n
  {
  }

  lemma QuotientInRange(b: real, t: real)
    requires 0.0 <= b <= t * 100.0 && t > 0.0
    ensures 0.0 <= b / t <= 100.0 && b / t * t == b
  {
    assert b / t * t == b;
    assert (100.0 - b / t) * t >= 0.0;
    assert b / t * t >= 0.0;
  }

  lemma ShareInRange(part: int, total: int)
    requires 0 <= part <= total && total > 0
    ensures 0.0 <= Share(part, total) <= 100.0
    ensures Share(part, total) * total as real == part as real * 100.0
  {
    QuotientInRange(part as real * 100.0, total as real);
  }

  /** A report, weighted with the growth of the total in its gap. */
  function Weight(u: real, total: int): real {
    u * total as real
  }

  function Percent(part: int): real {
    part as real * 100.0
  }

  lemma PercentAdds(a: int, b: int)
    ensures Percent(a) + Percent(b) == Percent(a + b)
  {
  }

  lemma ShareTimesWeight(part: int, total: int)
    requires 0 <= part <= total
    ensures Weight(Share(part, total), total) == Percent(part)
  {
    if total != 0 {
      ShareInRange(part, total);
    }
  }

  /** With true deltas the quotient is the busy share, and neither clamp fires. */
  lemma UsageOfDeltas(prev: Prev, now: Prev, total: nat, idle: nat)
    requires Delta(now.total, prev.total) == total && Delta(now.idle, prev.idle) == idle
    requires 0 < total < TWO_64 && idle <= total
    ensures RawUsage(prev, now) == Share(total - idle, total) && 0.0 <= RawUsage(prev, now) <= 100.0
  {
    WrapSmall(total - idle);
    ShareInRange(total - idle, total);
  }

  /** The busy share, in percent, of all the time between two readings; 0 if there was none. */
  function TrueUsage(c: Counters, c': Counters): real {
    Share(TrueBusy(c') - TrueBusy(c), Sum(c') - Sum(c))
  }

  ghost predicate IsReport(u: real, c: Counters, c': Counters) {
    u == Usage(Some(PrevOf(Visible(c))), PrevOf(Visible(c')))
  }

  lemma BusyIsTheRest(c: Counters, c': Counters)
    ensures TrueUsage(c, c') == Share(Sum(c') - Sum(c) - (TrueIdle(c') - TrueIdle(c)), Sum(c') - Sum(c))
  {
  }

  /** The quotient is the true share, and in range before it is clamped: neither clamp fires. */
  lemma NoClampFires(c: Counters, c': Counters)
    requires Grows(c, c') && Sum(c') != Sum(c)
    ensures Delta(PrevOf(Visible(c')).total, PrevOf(Visible(c)).total) != 0
    ensures 0.0 <= RawUsage(PrevOf(Visible(c)), PrevOf(Visible(c'))) <= 100.0
    ensures RawUsage(PrevOf(Visible(c)), PrevOf(Visible(c'))) == TrueUsage(c, c')
  {
    TrueGrowth(c, c');
    var total, idle := Sum(c') - Sum(c), TrueIdle(c') - TrueIdle(c);
    TotalDeltaIsTrue(c, c');
    IdleDeltaIsTrue(c, c');
    UsageOfDeltas(PrevOf(Visible(c)), PrevOf(Visible(c')), total, idle);
    BusyIsTheRest(c, c');
  }

  /** Each report is exactly the busy share of its gap. */
  lemma ReportIsExact(c: Counters, c': Counters)
    requires Grows(c, c')
    ensures Usage(Some(PrevOf(Visible(c))), PrevOf(Visible(c'))) == TrueUsage(c, c')
    ensures 0.0 <= TrueUsage(c, c') <= 100.0
  {
    if Sum(c') == Sum(c) {
      TotalDeltaIsTrue(c, c');
    } else {
      NoClampFires(c, c');
    }
  }

  /** A report weighted with the growth of the total is the growth of the busy time, in percent. */
  lemma WeightOfReport(c: Counters, c': Counters, u: real)
    requires Grows(c, c') && u == TrueUsage(c, c')
    ensures Weight(u, Sum(c') - Sum(c)) == Percent(TrueBusy(c') - TrueBusy(c))
  {
    TrueGrowth(c, c');
    ShareTimesWeight(TrueBusy(c') - TrueBusy(c), Sum(c') - Sum(c));
  }

  // By the position of the fields

  lemma SumStep(s: seq<int>, k: nat)
    requires k < |s|
    ensures Sum(s[..k + 1]) == Sum(s[..k]) + s[k]
  {
    assert s[..k + 1][..k] == s[..k];
  }

  lemma SumOfTen(s: seq<int>)
    requires |s| == 10
    ensures Sum(s) == s[0] + s[1] + s[2] + s[3] + s[4] + s[5] + s[6] + s[7] + s[8] + s[9]
  {
    SumStep(s, 0);
    SumStep(s, 1);
    SumStep(s, 2);
    SumStep(s, 3);
    SumStep(s, 4);
    SumStep(s, 5);
    SumStep(s, 6);
    SumStep(s, 7);
    SumStep(s, 8);
    SumStep(s, 9);
    assert s[..10] == s;
  }

  function Growth(before: int, now: int): int {
    now - before
  }

  /** The time spent outside the fields 3 and 4. */
  function BusyGrowth(c: Counters, c': Counters): int {
    Growth(c[0], c'[0]) + Growth(c[1], c'[1]) + Growth(c[2], c'[2]) + Growth(c[5], c'[5]) + Growth(c[6], c'[6])
    + Growth(c[7], c'[7]) + Growth(c[8], c'[8]) + Growth(c[9], c'[9])
  }

  function AllGrowth(c: Counters, c': Counters): int {
    BusyGrowth(c, c') + Growth(c[3], c'[3]) + Growth(c[4], c'[4])
  }

  lemma GrowthsAdd(c: Counters, c': Counters)
    ensures Sum(c') - Sum(c) == AllGrowth(c, c')
    ensures TrueBusy(c') - TrueBusy(c) == BusyGrowth(c, c')
  {
    SumOfTen(c);
    SumOfTen(c');
  }

  /** u is part in percent of total, and 0 of an empty total. */
  predicate IsPercentage(u: real, part: int, total: int) {
    (total == 0 ==> u == 0.0) && u * total as real == part as real * 100.0
  }

  lemma ShareIsPercentage(part: int, total: int)
    requires 0 <= part <= total
    ensures IsPercentage(Share(part, total), part, total)
  {
    if total != 0 {
      ShareInRange(part, total);
    }
  }

  lemma ReportIsUsage(c: Counters, c': Counters, u: real)
    requires Grows(c, c') && IsReport(u, c, c')
    ensures u == TrueUsage(c, c')
  {
    ReportIsExact(c, c');
  }

  /** A report is the growth of all fields but 3 and 4 in percent of the growth of all ten. */
  lemma ReportByPosition(c: Counters, c': Counters, u: real)
    requires Grows(c, c') && IsReport(u, c, c')
    ensures IsPercentage(u, BusyGrowth(c, c'), AllGrowth(c, c'))
  {
    ReportIsUsage(c, c', u);
    TrueGrowth(c, c');
    ShareIsPercentage(TrueBusy(c') - TrueBusy(c), Sum(c') - Sum(c));
    GrowthsAdd(c, c');
  }

  lemma SomeGrowth(c: Counters, c': Counters)
    requires Grows(c, c') && c != c'
    ensures AllGrowth(c, c') > 0
  {
    GrowthsAdd(c, c');
    var i :| 0 <= i < 10 && c'[i] != c[i];
    SumOfDifferences(c, c');
  }

  lemma Cancel(x: real, y: real, factor: real)
    requires factor > 0.0 && x * factor == y * factor
    ensures x == y
  {
    assert x == x * factor / factor;
    assert y == y * factor / factor;
  }

  lemma PercentageEnds(u: real, part: int, total: int)
    requires IsPercentage(u, part, total) && total > 0
    ensures part == 0 ==> u == 0.0
    ensures part == total ==> u == 100.0
  {
    if part == 0 {
      Cancel(u, 0.0, total as real);
    } else if part == total {
      Cancel(u, 100.0, total as real);
    }
  }

  lemma SameBusyFields(c: Counters, c': Counters)
    requires c'[..3] == c[..3] && c'[5..] == c[5..]
    ensures BusyGrowth(c, c') == 0
  {
    assert forall i :: 0 <= i < 3 ==> c'[..3][i] == c'[i] && c[..3][i] == c[i];
    assert forall i :: 5 <= i < 10 ==> c'[5..][i - 5] == c'[i] && c[5..][i - 5] == c[i];
  }

  /** Time that passes in the fields 3 and 4 alone is reported as 0, in the others alone as 100. */
  lemma IdleAndBusyAlone(c: Counters, c': Counters, u: real)
    requires Grows(c, c') && IsReport(u, c, c') && c != c'
    ensures c'[..3] == c[..3] && c'[5..] == c[5..] ==> u == 0.0
    ensures c'[3] == c[3] && c'[4] == c[4] ==> u == 100.0
  {
    ReportByPosition(c, c', u);
    SomeGrowth(c, c');
    if c'[..3] == c[..3] && c'[5..] == c[5..] {
      SameBusyFields(c, c');
    }
    PercentageEnds(u, BusyGrowth(c, c'), AllGrowth(c, c'));
  }

  /** Fields that the kernel does not show count as 0. */
  lemma MissingFieldsAreZero(scanned: seq<nat>, i: nat)
    requires i < 10
    ensures |Padded(scanned)| == 10 && Padded(scanned)[i] == if i < |scanned| then scanned[i] else 0
  {
  }

  ghost predicate GrowingRun(run: seq<Counters>) {
    forall k :: 0 < k < |run| ==> Grows(run[k - 1], run[k])
  }

  /** The reports of a tracker that has read the visible counters run[0], run[1], ... in turn. */
  ghost predicate AreReports(reports: seq<real>, run: seq<Counters>) {
    && |reports| == |run|
    && (run != [] ==> reports[0] == 0.0)
    && forall k :: 0 < k < |run| ==> IsReport(reports[k], run[k - 1], run[k])
  }

  /** The program's reports are those. */
  method RunTracker(run: seq<Counters>) returns (reports: seq<real>)
    ensures AreReports(reports, run)
  {
    var tracker := new CpuTracker();
    var out := new Cell(0.0);
    reports := [];
    for k := 0 to |run|
      invariant AreReports(reports, run[..k])
      invariant tracker.Last() == if k == 0 then None else Some(PrevOf(Visible(run[k - 1])))
    {
      var fields := Visible(run[k]);
      assert Padded(fields) == fields;
      var status := tracker.ReadCpuUsage(Some(fields), out);
      assert k > 0 ==> IsReport(out.value, run[k - 1], run[k]);
      reports := reports + [out.value];
    }
    assert run[..|run|] == run;
  }

  /** The reports up to k, each weighted with the growth of the total in its gap. */
  ghost function Weighted(reports: seq<real>, run: seq<Counters>, k: nat): real
    requires |reports| == |run| && k < |run|
  {
    if k == 0 then 0.0
    else Weighted(reports, run, k - 1) + Weight(reports[k], Sum(run[k]) - Sum(run[k - 1]))
  }

  ghost predicate AreShares(reports: seq<real>, run: seq<Counters>) {
    |reports| == |run| && forall k :: 0 < k < |run| ==> reports[k] == TrueUsage(run[k - 1], run[k])
  }

  lemma ReportsAreShares(reports: seq<real>, run: seq<Counters>)
    requires AreReports(reports, run) && GrowingRun(run)
    ensures AreShares(reports, run)
  {
    forall k | 0 < k < |run|
      ensures reports[k] == TrueUsage(run[k - 1], run[k])
    {
      assert Grows(run[k - 1], run[k]) && IsReport(reports[k], run[k - 1], run[k]);
      ReportIsExact(run[k - 1], run[k]);
    }
  }

  lemma {:induction false} WeightedTelescopes(reports: seq<real>, run: seq<Counters>, k: nat)
    requires AreShares(reports, run) && GrowingRun(run) && k < |run|
    ensures Weighted(reports, run, k) == Percent(TrueBusy(run[k]) - TrueBusy(run[0]))
  {
    if k > 0 {
      WeightedTelescopes(reports, run, k - 1);
      assert Grows(run[k - 1], run[k]);
      WeightOfReport(run[k - 1], run[k], reports[k]);
      PercentAdds(TrueBusy(run[k - 1]) - TrueBusy(run[0]), TrueBusy(run[k]) - TrueBusy(run[k - 1]));
    }
  }

  /** The weighted mean of the reports is the usage between the first and the last sample. */
  lemma WeightedMean(reports: seq<real>, run: seq<Counters>)
    requires AreReports(reports, run) && GrowingRun(run)
    requires run != [] && Sum(run[|run| - 1]) != Sum(run[0])
    ensures Weighted(reports, run, |run| - 1) / (Sum(run[|run| - 1]) - Sum(run[0])) as real
         == TrueUsage(run[0], run[|run| - 1])
  {
    ReportsAreShares(reports, run);
    WeightedTelescopes(reports, run, |run| - 1);
  }
}
