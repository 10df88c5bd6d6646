/**
  The meminfo scan of monitor.c.  The file is the sequence of lines that fscanf reads completely
  before it stops; the scan may stop earlier, once it knows the total and the available memory.
*/
module MemInfo {
  import opened Common

  datatype Line = Line(name: string, kb: nat)

  const TOTAL := "MemTotal:"
  const AVAILABLE := "MemAvailable:"
  const FREE := "MemFree:"
  const BUFFERS := "Buffers:"
  const CACHED := "Cached:"

  datatype Scan = Scan(total: nat, available: nat, free: nat, buffers: nat, cached: nat)

  const NOTHING_SEEN := Scan(0, 0, 0, 0, 0)

  function See(s: Scan, line: Line): Scan {
    if line.name == TOTAL then s.(total := line.kb)
    else if line.name == AVAILABLE then s.(available := line.kb)
    else if line.name == FREE then s.(free := line.kb)
    else if line.name == BUFFERS then s.(buffers := line.kb)
    else if line.name == CACHED then s.(cached := line.kb)
    else s
  }

  /** The first k lines, with no early exit. */
  function ScanFirst(lines: seq<Line>, k: nat): Scan
    requires k <= |lines|
  {
    if k == 0 then NOTHING_SEEN else See(ScanFirst(lines, k - 1), lines[k - 1])
  }

  predicate KnowsEnough(s: Scan) {
    s.total > 0 && s.available > 0
  }

  function Available(s: Scan): nat {
    if s.available == 0 && (s.free > 0 || s.buffers > 0 || s.cached > 0)
    then Wrap(s.free + s.buffers + s.cached) else s.available
  }

  datatype Figures = Figures(total: real, used: real, percent: real)

  function ToGigabytes(kb: nat): real {
    kb as real / (1024.0 * 1024.0)
  }

  /** The answer a scan leads to, None for a parse error. */
  function Answer(s: Scan): Option<Figures> {
    var available := Available(s);
    if s.total == 0 || available == 0 || available > s.total then None
    else
      var total := ToGigabytes(s.total);
      var used := total - ToGigabytes(available);
      Some(Figures(total, used, used / total * 100.0))
  }

  /** The early exit: the first point at which total and available are known, or the end. */
  ghost predicate StopsAt(lines: seq<Line>, k: nat) {
    && k <= |lines|
    && (KnowsEnough(ScanFirst(lines, k)) || k == |lines|)
    && forall j :: 0 <= j < k ==> !KnowsEnough(ScanFirst(lines, j))
  }

  ghost predicate Delivers(answer: Option<Figures>, status: Status, figures: Figures) {
    if answer.Some? then status == Ok && figures == answer.value else status == ParseError
  }

  /** The scanning loop, with its early exit. */
  method ScanFile(lines: seq<Line>) returns (s: Scan, ghost seen: nat)
    ensures StopsAt(lines, seen) && s == ScanFirst(lines, seen)
    ensures Answer(s) == Answer(ScanFirst(lines, |lines|)) <==> seen == |lines| || LastLinesAgree(lines, seen)
    ensures KeyLinesOver(lines, seen) ==> Answer(s) == Answer(ScanFirst(lines, |lines|))
    ensures DistinctLabels(lines) ==> Answer(s) == Answer(ScanFirst(lines, |lines|))
  {
    var totalKb: nat, availableKb: nat, freeKb: nat, buffersKb: nat, cachedKb: nat := 0, 0, 0, 0, 0;
    var i := 0;
    while i < |lines|
      invariant i <= |lines| && forall k :: 0 <= k <= i ==> !KnowsEnough(ScanFirst(lines, k))
      invariant Scan(totalKb, availableKb, freeKb, buffersKb, cachedKb) == ScanFirst(lines, i)
    {
      var name, valueKb := lines[i].name, lines[i].kb;
      if name == TOTAL {
        totalKb := valueKb;
      } else if name == AVAILABLE {
        availableKb := valueKb;
      } else if name == FREE {
        freeKb := valueKb;
      } else if name == BUFFERS {
        buffersKb := valueKb;
      } else if name == CACHED {
        cachedKb := valueKb;
      }
      i := i + 1;
      if totalKb > 0 && availableKb > 0 {
        break;
      }
    }
    s, seen := Scan(totalKb, availableKb, freeKb, buffersKb, cachedKb), i;
    if KnowsEnough(s) {
      EarlyExitIsExact(lines, i);
      if DistinctLabels(lines) {
        DistinctIsOver(lines, i);
      }
      if KeyLinesOver(lines, i) {
        RestDoesNotMatter(lines, i, |lines|);
      }
    }
  }

  class MemoryUsage {
    var usedGb: real
    var totalGb: real
    var usagePercent: real

    function View(): Figures
      reads this
    {
      Figures(totalGb, usedGb, usagePercent)
    }

    /** monitor_read_memory_usage: the outcome of the scan up to its early exit, which is that of a
        full scan if no MemTotal or MemAvailable line follows; a failure leaves the figures untouched. */
    method ReadMemoryUsage(file: Option<seq<Line>>) returns (status: Status, ghost seen: nat)
      modifies this
      ensures file.None? ==> status == IoError
      ensures file.Some? ==> StopsAt(file.value, seen)
      ensures file.Some? ==> Delivers(Answer(ScanFirst(file.value, seen)), status, View())
      ensures file.Some? && (DistinctLabels(file.value) || KeyLinesOver(file.value, seen)) ==>
        Delivers(Answer(ScanFirst(file.value, |file.value|)), status, View())
      ensures status != Ok ==> View() == old(View())
      ensures file.Some? ==> exists available ::
        var total := LastFigure(file.value, seen, "MemTotal:");
        && IsAvailable(file.value, seen, available)
        && (0 < available <= total ==> status == Ok && Means(View(), total, available))
        && (!(0 < available <= total) ==> status == ParseError)
    {
      seen := 0;
      if file.None? {
        return IoError, seen;
      }
      var s;
      s, seen := ScanFile(file.value);
      AvailableIsMeant(file.value, seen);
      ScanSeesLast(file.value, seen);
      if Answer(s).Some? {
        FiguresMean(s);
      }
      var availableKb := s.available;
      if availableKb == 0 && (s.free > 0 || s.buffers > 0 || s.cached > 0) {
        availableKb := Wrap(s.free + s.buffers + s.cached);
      }
      if s.total == 0 || availableKb == 0 || availableKb > s.total {
        return ParseError, seen;
      }
      totalGb := ToGigabytes(s.total);
      usedGb := totalGb - ToGigabytes(availableKb);
      usagePercent := usedGb / totalGb * 100.0;
      return Ok, seen;
    }
  }

  // ---------------------------------------------------------------------------------------------

  ghost predicate DistinctLabels(lines: seq<Line>) {
    forall i, j :: 0 <= i < j < |lines| ==> lines[i].name != lines[j].name
  }

  type Labelled = lines: seq<Line> | DistinctLabels(lines)

  ghost predicate Has(lines: seq<Line>, k: nat, name: string) {
    exists i :: 0 <= i < k <= |lines| && lines[i].name == name
  }

  /** A positive figure was read from a line with that name. */
  lemma {:induction false} PositiveWasRead(lines: seq<Line>, k: nat)
    requires k <= |lines|
    ensures ScanFirst(lines, k).total > 0 ==> Has(lines, k, TOTAL)
    ensures ScanFirst(lines, k).available > 0 ==> Has(lines, k, AVAILABLE)
  {
    if k > 0 {
      PositiveWasRead(lines, k - 1);
      if Has(lines, k - 1, TOTAL) || lines[k - 1].name == TOTAL { assert Has(lines, k, TOTAL); }
      if Has(lines, k - 1, AVAILABLE) || lines[k - 1].name == AVAILABLE { assert Has(lines, k, AVAILABLE); }
    }
  }

  /** No line from k on is about the total or the available memory. */
  ghost predicate KeyLinesOver(lines: seq<Line>, k: nat) {
    forall i :: k <= i < |lines| ==> lines[i].name != TOTAL && lines[i].name != AVAILABLE
  }

  lemma DistinctIsOver(lines: seq<Line>, k: nat)
    requires DistinctLabels(lines) && k <= |lines| && KnowsEnough(ScanFirst(lines, k))
    ensures KeyLinesOver(lines, k)
  {
    PositiveWasRead(lines, k);
  }

  /** Once total and available are known, lines about other things do not change the answer. */
  lemma {:induction false} RestDoesNotMatter(lines: seq<Line>, k: nat, m: nat)
    requires k <= m <= |lines| && KnowsEnough(ScanFirst(lines, k)) && KeyLinesOver(lines, k)
    ensures ScanFirst(lines, m).total == ScanFirst(lines, k).total
    ensures ScanFirst(lines, m).available == ScanFirst(lines, k).available
    ensures Answer(ScanFirst(lines, m)) == Answer(ScanFirst(lines, k))
  {
    if k < m {
      RestDoesNotMatter(lines, k, m - 1);
    }
  }

  // ---------------------------------------------------------------------------------------------
  // Exactly when the early exit agrees with a full scan

  /** The figure of the last line of that name among the first k, 0 if there is none. */
  function LastFigure(lines: seq<Line>, k: nat, name: string): nat
    requires k <= |lines|
  {
    if k == 0 then 0
    else if lines[k - 1].name == name then lines[k - 1].kb
    else LastFigure(lines, k - 1, name)
  }

  /** What a full scan sees of a file: the last line of each name. */
  function LastFigures(lines: seq<Line>, k: nat): Scan
    requires k <= |lines|
  {
    Scan(LastFigure(lines, k, TOTAL), LastFigure(lines, k, AVAILABLE), LastFigure(lines, k, FREE),
         LastFigure(lines, k, BUFFERS), LastFigure(lines, k, CACHED))
  }

  lemma {:induction false} ScanSeesLast(lines: seq<Line>, k: nat)
    requires k <= |lines|
    ensures ScanFirst(lines, k) == LastFigures(lines, k)
  {
    if k > 0 {
      ScanSeesLast(lines, k - 1);
    }
  }

  /** That is the figure of the line behind which the name does not occur again. */
  lemma {:induction false} FigureOfLastLine(lines: seq<Line>, k: nat, i: nat, name: string)
    requires i < k <= |lines| && lines[i].name == name && forall j :: i < j < k ==> lines[j].name != name
    ensures LastFigure(lines, k, name) == lines[i].kb
  {
    if i < k - 1 {
      FigureOfLastLine(lines, k - 1, i, name);
    }
  }

  predicate Refuses(total: nat, available: nat) {
    total == 0 || available == 0 || available > total
  }

  /** Answers tell totals and available memories apart. */
  lemma AnswersDiffer(s: Scan, f: Scan)
    ensures Answer(s) == Answer(f) <==>
      if Refuses(s.total, Available(s)) then Refuses(f.total, Available(f))
      else f.total == s.total && Available(f) == Available(s)
  {
    assert ToGigabytes(s.total) == ToGigabytes(f.total) <==> s.total == f.total;
    assert ToGigabytes(Available(s)) == ToGigabytes(Available(f)) <==> Available(s) == Available(f);
  }

  /** The last lines of the file that are about memory give the figures of the stop: the same total
      and the same available memory, or, where the stop already shows more available than there is,
      figures that are refused as well. */
  predicate LastLinesAgree(lines: seq<Line>, k: nat)
    requires k <= |lines|
  {
    var total, available := LastFigure(lines, k, TOTAL), LastFigure(lines, k, AVAILABLE);
    var lastTotal, lastAvailable := LastFigure(lines, |lines|, TOTAL), Available(LastFigures(lines, |lines|));
    if available > total then Refuses(lastTotal, lastAvailable)
    else lastTotal == total && lastAvailable == available
  }

  /** The early exit gives the answer of a full scan exactly if the last lines agree with it. */
  lemma EarlyExitIsExact(lines: seq<Line>, k: nat)
    requires k <= |lines| && KnowsEnough(ScanFirst(lines, k))
    ensures Answer(ScanFirst(lines, k)) == Answer(ScanFirst(lines, |lines|)) <==> LastLinesAgree(lines, k)
  {
    ScanSeesLast(lines, k);
    ScanSeesLast(lines, |lines|);
    AnswersDiffer(ScanFirst(lines, k), ScanFirst(lines, |lines|));
  }

  /** A file on which they differ: a second MemTotal line is seen by a full scan only. */
  lemma RepeatedLabelMatters()
    ensures var lines := [Line(TOTAL, 5), Line(AVAILABLE, 3), Line(TOTAL, 7)];
            KnowsEnough(ScanFirst(lines, 2)) && Answer(ScanFirst(lines, 2)) != Answer(ScanFirst(lines, 3))
  {
    var lines := [Line(TOTAL, 5), Line(AVAILABLE, 3), Line(TOTAL, 7)];
    assert ScanFirst(lines, 1) == Scan(5, 0, 0, 0, 0);
    assert ScanFirst(lines, 2) == Scan(5, 3, 0, 0, 0);
    assert ScanFirst(lines, 3) == Scan(7, 3, 0, 0, 0);
    assert ToGigabytes(5) != ToGigabytes(7);
  }

  // ---------------------------------------------------------------------------------------------
  // The order of the lines does not matter

  function Field(s: Scan, name: string): nat {
    if name == TOTAL then s.total
    else if name == AVAILABLE then s.available
    else if name == FREE then s.free
    else if name == BUFFERS then s.buffers
    else if name == CACHED then s.cached
    else 0
  }

  predicate IsField(name: string) {
    name == TOTAL || name == AVAILABLE || name == FREE || name == BUFFERS || name == CACHED
  }

  lemma SeeSetsField(s: Scan, line: Line, name: string)
    ensures IsField(name) ==>
      Field(See(s, line), name) == if line.name == name then line.kb else Field(s, name)
  {
  }

  /** A scan finds for each name the figure of its line, and 0 if there is none. */
  lemma {:induction false} ScanFinds(lines: Labelled, k: nat, name: string)
    requires k <= |lines| && IsField(name)
    ensures forall i :: 0 <= i < k && lines[i].name == name ==> Field(ScanFirst(lines, k), name) == lines[i].kb
    ensures !Has(lines, k, name) ==> Field(ScanFirst(lines, k), name) == 0
  {
    if k > 0 {
      ScanFinds(lines, k - 1, name);
      SeeSetsField(ScanFirst(lines, k - 1), lines[k - 1], name);
      assert Has(lines, k - 1, name) || lines[k - 1].name == name ==> Has(lines, k, name);
    }
  }

  lemma FieldOfLine(lines: Labelled, line: Line)
    requires line in lines && IsField(line.name)
    ensures Field(ScanFirst(lines, |lines|), line.name) == line.kb
  {
    ScanFinds(lines, |lines|, line.name);
  }

  lemma FieldAbsent(lines: Labelled, name: string)
    requires IsField(name) && forall line :: line in lines ==> line.name != name
    ensures Field(ScanFirst(lines, |lines|), name) == 0
  {
    ScanFinds(lines, |lines|, name);
  }

  lemma SameField(lines: Labelled, lines': Labelled, name: string)
    requires IsField(name)
    requires forall line :: line in lines <==> line in lines'
    ensures Field(ScanFirst(lines, |lines|), name) == Field(ScanFirst(lines', |lines'|), name)
  {
    if line :| line in lines && line.name == name {
      FieldOfLine(lines, line);
      FieldOfLine(lines', line);
    } else {
      FieldAbsent(lines, name);
      FieldAbsent(lines', name);
    }
  }

  /** Any permutation of the lines gives the same answer. */
  lemma OrderDoesNotMatter(lines: seq<Line>, lines': seq<Line>)
    requires DistinctLabels(lines) && multiset(lines) == multiset(lines')
    ensures DistinctLabels(lines')
    ensures Answer(ScanFirst(lines, |lines|)) == Answer(ScanFirst(lines', |lines'|))
  {
    PermutationStaysDistinct(lines, lines');
    forall line
      ensures line in lines <==> line in lines'
    {
      assert line in lines <==> line in multiset(lines);
      assert line in lines' <==> line in multiset(lines');
    }
    SameField(lines, lines', TOTAL);
    SameField(lines, lines', AVAILABLE);
    SameField(lines, lines', FREE);
    SameField(lines, lines', BUFFERS);
    SameField(lines, lines', CACHED);
    assert ScanFirst(lines, |lines|) == ScanFirst(lines', |lines'|);
  }

  /** Lines with equal labels are equal or at different positions; both are excluded by counting. */
  lemma PermutationStaysDistinct(lines: seq<Line>, lines': seq<Line>)
    requires DistinctLabels(lines) && multiset(lines) == multiset(lines')
    ensures DistinctLabels(lines')
  {
    forall i, j | 0 <= i < j < |lines'|
      ensures lines'[i].name != lines'[j].name
    {
      var a, b := lines'[i], lines'[j];
      assert a in multiset(lines') && b in multiset(lines');
      if a == b {
        TwiceCounted(lines', i, j);
        OnceCounted(lines, a);
      }
      assert a in lines && b in lines;
    }
  }

  lemma TwiceCounted(lines: seq<Line>, i: nat, j: nat)
    requires i < j < |lines| && lines[i] == lines[j]
    ensures multiset(lines)[lines[i]] >= 2
  {
    assert lines == lines[..j] + [lines[j]] + lines[j + 1..];
    assert lines[i] in lines[..j];
  }

  lemma {:induction false} OnceCounted(lines: seq<Line>, line: Line)
    requires DistinctLabels(lines)
    ensures multiset(lines)[line] <= 1
  {
    if lines != [] {
      var n := |lines| - 1;
      OnceCounted(lines[..n], line);
      assert lines == lines[..n] + [lines[n]];
      if line == lines[n] {
        assert line !in lines[..n];
      }
    }
  }

  // ---------------------------------------------------------------------------------------------
  // The answer in kilobytes

  /** What the program takes for available: the MemAvailable figure, or, where that is missing or 0,
      the sum of MemFree, Buffers and Cached in unsigned long long. */
  ghost predicate IsAvailable(lines: seq<Line>, k: nat, available: int)
    requires k <= |lines|
  {
    if LastFigure(lines, k, "MemAvailable:") > 0 then available == LastFigure(lines, k, "MemAvailable:")
    else
      var sum := LastFigure(lines, k, "MemFree:") + LastFigure(lines, k, "Buffers:") + LastFigure(lines, k, "Cached:");
      0 <= available < 0x1_0000_0000_0000_0000 && exists q: int :: sum == q * 0x1_0000_0000_0000_0000 + available
  }

  /** Gigabytes, used memory and percentage of that many kilobytes. */
  ghost predicate Means(f: Figures, total: int, available: int) {
    && f.total * 1048576.0 == total as real
    && f.used * 1048576.0 == (total - available) as real
    && f.percent * total as real == 100.0 * (total - available) as real
  }

  lemma SumIsAvailable(sum: nat)
    ensures exists q: int :: sum == q * 0x1_0000_0000_0000_0000 + Wrap(sum)
  {
    var q := sum / TWO_64;
    assert sum == q * TWO_64 + Wrap(sum);
  }

  lemma AvailableIsMeant(lines: seq<Line>, k: nat)
    requires k <= |lines|
    ensures IsAvailable(lines, k, Available(ScanFirst(lines, k)))
  {
    ScanSeesLast(lines, k);
    var s := ScanFirst(lines, k);
    if s.available == 0 {
      SumIsAvailable(s.free + s.buffers + s.cached);
    }
  }

  lemma GigabytesTimes(kb: int)
    ensures (kb as real / (1024.0 * 1024.0)) * 1048576.0 == kb as real
  {
  }

  lemma PercentTimes(total: real, used: real, kbTotal: real, kbUsed: real)
    requires kbTotal > 0.0 && total * 1048576.0 == kbTotal && used * 1048576.0 == kbUsed
    ensures total != 0.0 && used / total * 100.0 * kbTotal == 100.0 * kbUsed
  {
    var share := used / total;
    assert share * total == used;
    assert share * (total * 1048576.0) == (share * total) * 1048576.0;
    assert share * kbTotal == kbUsed;
    assert share * 100.0 * kbTotal == 100.0 * (share * kbTotal);
  }

  lemma FiguresMean(s: Scan)
    requires Answer(s).Some?
    ensures Means(Answer(s).value, s.total, Available(s))
  {
    var available := Available(s);
    GigabytesTimes(s.total);
    GigabytesTimes(available);
    var total := ToGigabytes(s.total);
    var used := total - ToGigabytes(available);
    assert used * 1048576.0 == (s.total - available) as real;
    PercentTimes(total, used, s.total as real, (s.total - available) as real);
  }

  /** Of two answers for the same total, the one with less available memory has the higher percentage. */
  lemma PercentGrows(f: Figures, f': Figures, total: int, available: int, available': int)
    requires Means(f, total, available) && Means(f', total, available')
    requires 0 < available' < available <= total
    ensures f.percent < f'.percent
  {
    var t := total as real;
    assert (f'.percent - f.percent) * t > 0.0;
  }

  /** The percentage is 0 exactly if everything is available, and always below 100. */
  lemma PercentRange(f: Figures, total: int, available: int)
    requires Means(f, total, available) && 0 < available <= total
    ensures 0.0 <= f.percent < 100.0 && (f.percent == 0.0 <==> available == total)
  {
    var t := total as real;
    assert f.percent * t >= 0.0;
    assert (100.0 - f.percent) * t > 0.0;
  }

  /** A successful answer is consistent. */
  lemma AnswerIsConsistent(s: Scan)
    requires Answer(s).Some?
    ensures var f := Answer(s).value;
            && 0.0 <= f.percent < 100.0
            && f.total > 0.0
            && f.used + ToGigabytes(Available(s)) == f.total
  {
    var f := Answer(s).value;
    var share := f.used / f.total;
    assert share * f.total == f.used;
    assert 0.0 <= f.used < f.total;
    ShareBelowOne(share, f.total);
  }

  lemma ShareBelowOne(share: real, total: real)
    requires total > 0.0 && 0.0 <= share * total < total
    ensures 0.0 <= share < 1.0
  {
    assert share < 0.0 ==> share * total < 0.0;
    assert share >= 1.0 ==> (share - 1.0) * total >= 0.0;
  }
}
