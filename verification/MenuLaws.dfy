/**
  Laws of the menu, stated over what is typed: which numbers the prompts take, what the session makes
  of them, and that every session can be typed.
*/
module MenuLaws {
  import opened Common
  import opened Strtol
  import opened MonitorConfig
  import opened ConfigLaws
  import opened ServerMonitor

  // ---------------------------------------------------------------------------------------------
  // The prompt

  /** Line j is the first one from pos on that answers the prompt. */
  ghost predicate FirstAnswer(lines: seq<string>, pos: nat, j: nat, min: int, max: int) {
    pos <= j < |lines| && IsNumber(lines[j], min, max) && forall i :: pos <= i < j ==> !IsNumber(lines[i], min, max)
  }

  /** The prompt takes the number that the first line with an admissible number denotes, and leaves
      the lines behind it; without such a line it uses up the input. */
  lemma {:induction false} NextIntMeans(lines: seq<string>, pos: nat, min: int, max: int)
    requires LONG_MIN <= min && max <= LONG_MAX && pos <= |lines|
    ensures var (value, rest) := NextInt(lines, pos, min, max);
            if value.None? then rest == |lines| && forall i :: pos <= i < |lines| ==> !IsNumber(lines[i], min, max)
            else pos < rest <= |lines| && FirstAnswer(lines, pos, rest - 1, min, max)
                 && Denotes(lines[rest - 1], value.value) && min <= value.value <= max
    decreases |lines| - pos
  {
    if pos < |lines| {
      NumberIsParsed(lines[pos], min, max);
      if ParseInt(lines[pos], min, max).status != Ok {
        NextIntMeans(lines, pos + 1, min, max);
      }
    }
  }

  // ---------------------------------------------------------------------------------------------
  // What is typed, independently of the configuration

  /** One choice from the menu, with the value typed after it; None if the input ends before that. */
  datatype Entry =
    | Monitor
    | NewInterval(ms: Option<int>)
    | NewDuration(ms: Option<int>)
    | Show
    | Exit

  /** The entry that a choice begins, and where the rest of the input begins. */
  function ReadChoice(choice: int, lines: seq<string>, pos: nat): (r: (Entry, nat))
    requires pos <= |lines|
    ensures pos <= r.1 <= |lines|
  {
    if choice == 1 then (Monitor, pos)
    else if choice == 2 then
      var (ms, rest) := NextInt(lines, pos, 100, 3600000); (NewInterval(ms), rest)
    else if choice == 3 then
      var (ms, rest) := NextInt(lines, pos, 1000, 86400000); (NewDuration(ms), rest)
    else if choice == 4 then (Show, pos)
    else (Exit, pos)
  }

  /** The entry typed from pos on, and where the rest of the input begins. */
  function ReadEntry(lines: seq<string>, pos: nat): (r: (Option<Entry>, nat))
    requires pos <= |lines|
    ensures pos <= r.1 <= |lines| && (r.0.Some? ==> pos < r.1)
  {
    var (choice, rest) := NextInt(lines, pos, 1, 5);
    if choice.None? then (None, rest)
    else
      var (e, rest') := ReadChoice(choice.value, lines, rest); (Some(e), rest')
  }

  /** The entries typed from pos on, up to the first Exit. */
  function Entries(lines: seq<string>, pos: nat): (es: seq<Entry>)
    requires pos <= |lines|
    ensures forall k :: 0 <= k < |es| - 1 ==> es[k] != Exit
    decreases |lines| - pos
  {
    var (e, rest) := ReadEntry(lines, pos);
    if e.None? then [] else if e.value == Exit then [Exit] else [e.value] + Entries(lines, rest)
  }

  /** A new interval is taken over if it is at most the duration, a new duration if it is at least the
      interval. */
  predicate TakesInterval(c: Cfg, e: Entry) {
    e.NewInterval? && e.ms.Some? && e.ms.value <= c.duration
  }

  predicate TakesDuration(c: Cfg, e: Entry) {
    e.NewDuration? && e.ms.Some? && c.interval <= e.ms.value
  }

  function Applied(c: Cfg, e: Entry): Cfg {
    if TakesInterval(c, e) then c.(interval := e.ms.value)
    else if TakesDuration(c, e) then c.(duration := e.ms.value)
    else c
  }

  /** The configuration after the first m entries. */
  function After(c: Cfg, es: seq<Entry>, m: nat): Cfg
    requires m <= |es|
  {
    if m == 0 then c else Applied(After(c, es, m - 1), es[m - 1])
  }

  /** How many of the first m entries ask for monitoring. */
  function Monitors(es: seq<Entry>, m: nat): nat
    requires m <= |es|
  {
    if m == 0 then 0 else Monitors(es, m - 1) + if es[m - 1] == Monitor then 1 else 0
  }

  /** Entry i brings a new interval, and it is taken over. */
  predicate IntervalTaken(c: Cfg, es: seq<Entry>, i: nat) {
    i < |es| && TakesInterval(After(c, es, i), es[i])
  }

  predicate DurationTaken(c: Cfg, es: seq<Entry>, i: nat) {
    i < |es| && TakesDuration(After(c, es, i), es[i])
  }

  ghost predicate NoInterval(c: Cfg, es: seq<Entry>, j: nat, m: nat) {
    forall i: nat :: j <= i < m ==> !IntervalTaken(c, es, i)
  }

  ghost predicate NoDuration(c: Cfg, es: seq<Entry>, j: nat, m: nat) {
    forall i: nat :: j <= i < m ==> !DurationTaken(c, es, i)
  }

  /** Entry j is the last one of the first m whose interval is taken over, and ms is that interval. */
  ghost predicate LastInterval(c: Cfg, es: seq<Entry>, j: nat, m: nat, ms: int) {
    j < m && IntervalTaken(c, es, j) && es[j] == NewInterval(Some(ms)) && NoInterval(c, es, j + 1, m)
  }

  ghost predicate LastDuration(c: Cfg, es: seq<Entry>, j: nat, m: nat, ms: int) {
    j < m && DurationTaken(c, es, j) && es[j] == NewDuration(Some(ms)) && NoDuration(c, es, j + 1, m)
  }

  lemma EntrySettings(c: Cfg, e: Entry)
    ensures TakesInterval(c, e) ==> e == NewInterval(Some(Applied(c, e).interval))
    ensures TakesDuration(c, e) ==> e == NewDuration(Some(Applied(c, e).duration))
    ensures !TakesInterval(c, e) ==> Applied(c, e).interval == c.interval
    ensures !TakesDuration(c, e) ==> Applied(c, e).duration == c.duration
  {
  }

  /** The interval is the one taken over last, or that of the start if none is. */
  lemma {:induction false} IntervalIsLast(c: Cfg, es: seq<Entry>, m: nat)
    requires m <= |es|
    ensures if NoInterval(c, es, 0, m) then After(c, es, m).interval == c.interval
            else exists j: nat :: LastInterval(c, es, j, m, After(c, es, m).interval)
  {
    if m > 0 {
      var d := After(c, es, m - 1);
      IntervalIsLast(c, es, m - 1);
      EntrySettings(d, es[m - 1]);
      assert After(c, es, m) == Applied(d, es[m - 1]);
      if IntervalTaken(c, es, m - 1) {
        assert !NoInterval(c, es, 0, m) && LastInterval(c, es, m - 1, m, After(c, es, m).interval);
      } else if NoInterval(c, es, 0, m - 1) {
        assert NoInterval(c, es, 0, m);
      } else {
        var j: nat :| LastInterval(c, es, j, m - 1, d.interval);
        assert IntervalTaken(c, es, j) && !NoInterval(c, es, 0, m) && LastInterval(c, es, j, m, d.interval);
      }
    }
  }

  /** So is the duration. */
  lemma {:induction false} DurationIsLast(c: Cfg, es: seq<Entry>, m: nat)
    requires m <= |es|
    ensures if NoDuration(c, es, 0, m) then After(c, es, m).duration == c.duration
            else exists j: nat :: LastDuration(c, es, j, m, After(c, es, m).duration)
  {
    if m > 0 {
      var d := After(c, es, m - 1);
      DurationIsLast(c, es, m - 1);
      EntrySettings(d, es[m - 1]);
      assert After(c, es, m) == Applied(d, es[m - 1]);
      if DurationTaken(c, es, m - 1) {
        assert !NoDuration(c, es, 0, m) && LastDuration(c, es, m - 1, m, After(c, es, m).duration);
      } else if NoDuration(c, es, 0, m - 1) {
        assert NoDuration(c, es, 0, m);
      } else {
        var j: nat :| LastDuration(c, es, j, m - 1, d.duration);
        assert DurationTaken(c, es, j) && !NoDuration(c, es, 0, m) && LastDuration(c, es, j, m, d.duration);
      }
    }
  }

  /** Nothing else ever changes. */
  lemma {:induction false} OthersStay(c: Cfg, es: seq<Entry>, m: nat)
    requires m <= |es|
    ensures var d := After(c, es, m);
            d.server == c.server && d.nonInteractive == c.nonInteractive && d.iterations == c.iterations
  {
    if m > 0 {
      OthersStay(c, es, m - 1);
    }
  }

  // ---------------------------------------------------------------------------------------------
  // What the session makes of the entries

  /** Call k belongs to the k-th Monitor and has the configuration of that moment. */
  ghost predicate IsSession(c: Cfg, es: seq<Entry>, s: Session) {
    && |s.calls| == Monitors(es, |es|)
    && (forall m :: 0 <= m < |es| && es[m] == Monitor ==>
          Monitors(es, m) < |s.calls| && s.calls[Monitors(es, m)] == Call(After(c, es, m), true))
    && (s.success <==> es != [] && es[|es| - 1] == Exit)
  }

  function CallOf(c: Cfg, e: Entry): seq<Call> {
    if e == Monitor then [Call(c, true)] else []
  }

  /** The calls that the entries from m on lead to. */
  function CallsFrom(c: Cfg, es: seq<Entry>, m: nat): seq<Call>
    requires m <= |es|
    decreases |es| - m
  {
    if m == |es| then [] else CallOf(After(c, es, m), es[m]) + CallsFrom(c, es, m + 1)
  }

  /** all is e and then es. */
  ghost predicate Follows(all: seq<Entry>, e: Entry, es: seq<Entry>) {
    |all| == |es| + 1 && all[0] == e && forall i :: 0 <= i < |es| ==> all[i + 1] == es[i]
  }

  lemma {:induction false} AfterSuffix(c: Cfg, all: seq<Entry>, e: Entry, es: seq<Entry>, m: nat)
    requires Follows(all, e, es) && m <= |es|
    ensures After(c, all, m + 1) == After(Applied(c, e), es, m)
  {
    if m == 0 {
      assert After(c, all, 0) == c;
    } else {
      AfterSuffix(c, all, e, es, m - 1);
      assert all[m] == all[(m - 1) + 1] == es[m - 1];
    }
  }

  lemma CallsUnfold(c: Cfg, es: seq<Entry>, m: nat)
    requires m < |es|
    ensures CallsFrom(c, es, m) == CallOf(After(c, es, m), es[m]) + CallsFrom(c, es, m + 1)
  {
  }

  lemma {:induction false} CallsSuffix(c: Cfg, all: seq<Entry>, e: Entry, es: seq<Entry>, m: nat)
    requires Follows(all, e, es) && m <= |es|
    ensures CallsFrom(c, all, m + 1) == CallsFrom(Applied(c, e), es, m)
    decreases |es| - m
  {
    if m < |es| {
      AfterSuffix(c, all, e, es, m);
      CallsSuffix(c, all, e, es, m + 1);
      CallsUnfold(c, all, m + 1);
      CallsUnfold(Applied(c, e), es, m);
    }
  }

  lemma CallsOfFirst(c: Cfg, e: Entry, es: seq<Entry>)
    ensures CallsFrom(c, [e] + es, 0) == CallOf(c, e) + CallsFrom(Applied(c, e), es, 0)
  {
    CallsSuffix(c, [e] + es, e, es, 0);
  }

  /** The menu does one entry after the other. */
  lemma MenuStep(c: Cfg, lines: seq<string>, pos: nat, calls: seq<Call>)
    requires pos <= |lines|
    ensures var (e, rest) := ReadEntry(lines, pos);
            Menu(c, lines, pos, calls)
            == if e.None? then Session(false, calls)
               else if e.value == Exit then Session(true, calls)
               else Menu(Applied(c, e.value), lines, rest, calls + CallOf(c, e.value))
  {
    assert calls + [] == calls;
  }

  lemma {:induction false} MenuIsCalls(c: Cfg, lines: seq<string>, pos: nat, calls: seq<Call>)
    requires pos <= |lines|
    ensures Menu(c, lines, pos, calls).calls == calls + CallsFrom(c, Entries(lines, pos), 0)
    ensures var es := Entries(lines, pos); Menu(c, lines, pos, calls).success <==> es != [] && es[|es| - 1] == Exit
    decreases |lines| - pos
  {
    MenuStep(c, lines, pos, calls);
    var (e, rest) := ReadEntry(lines, pos);
    if e.Some? {
      if e.value == Exit {
        CallsOfFirst(c, Exit, []);
      } else {
        var es := Entries(lines, rest);
        MenuIsCalls(Applied(c, e.value), lines, rest, calls + CallOf(c, e.value));
        CallsOfFirst(c, e.value, es);
        CallsJoin(calls, CallOf(c, e.value), CallsFrom(Applied(c, e.value), es, 0));
      }
    }
  }

  lemma CallsJoin(a: seq<Call>, b: seq<Call>, c: seq<Call>)
    ensures a + b + c == a + (b + c)
  {
  }

  lemma {:induction false} CallsAt(c: Cfg, es: seq<Entry>, m: nat)
    requires m <= |es|
    ensures Monitors(es, m) + |CallsFrom(c, es, m)| == Monitors(es, |es|)
    ensures forall j :: m <= j < |es| && es[j] == Monitor ==>
      && Monitors(es, m) <= Monitors(es, j) < Monitors(es, |es|)
      && CallsFrom(c, es, m)[Monitors(es, j) - Monitors(es, m)] == Call(After(c, es, j), true)
    decreases |es| - m
  {
    if m < |es| {
      CallsAt(c, es, m + 1);
    }
  }

  lemma EntriesMakeSession(c: Cfg, es: seq<Entry>, s: Session)
    requires s.calls == CallsFrom(c, es, 0) && (s.success <==> es != [] && es[|es| - 1] == Exit)
    ensures IsSession(c, es, s)
  {
    CallsAt(c, es, 0);
  }

  /** The session makes one call for each Monitor typed before the first Exit or the end of the input,
      with the settings of that moment, and succeeds exactly if Exit is reached. */
  lemma MenuMeans(c: Cfg, lines: seq<string>)
    ensures IsSession(c, Entries(lines, 0), Menu(c, lines, 0, []))
  {
    var es := Entries(lines, 0);
    var s := Menu(c, lines, 0, []);
    MenuIsCalls(c, lines, 0, []);
    assert s.calls == CallsFrom(c, es, 0);
    EntriesMakeSession(c, es, s);
  }

  // ---------------------------------------------------------------------------------------------
  // Sessions compose

  /** all is a and then b. */
  ghost predicate Joined(all: seq<string>, a: seq<string>, b: seq<string>) {
    && |all| == |a| + |b|
    && (forall i :: 0 <= i < |a| ==> all[i] == a[i])
    && forall i :: 0 <= i < |b| ==> all[|a| + i] == b[i]
  }

  /** The prompt takes its number from the first part of the input if there is one. */
  lemma {:induction false} NextIntOfFirst(all: seq<string>, a: seq<string>, b: seq<string>, pos: nat,
                                          min: int, max: int)
    requires Joined(all, a, b) && pos <= |a|
    ensures NextInt(a, pos, min, max).0.Some? ==> NextInt(all, pos, min, max) == NextInt(a, pos, min, max)
    ensures NextInt(a, pos, min, max).0.None? ==> NextInt(all, pos, min, max) == NextInt(all, |a|, min, max)
    decreases |a| - pos
  {
    if pos < |a| {
      NextIntOfFirst(all, a, b, pos + 1, min, max);
    }
  }

  ghost predicate TailAt(all: seq<string>, n: nat, b: seq<string>) {
    |all| == n + |b| && forall i :: 0 <= i < |b| ==> all[n + i] == b[i]
  }

  function Shifted(r: (Option<int>, nat), n: nat): (Option<int>, nat) {
    (r.0, n + r.1)
  }

  lemma {:induction false} NextIntOfTail(all: seq<string>, n: nat, b: seq<string>, pos: nat, min: int, max: int)
    requires TailAt(all, n, b) && pos <= |b|
    ensures NextInt(all, n + pos, min, max) == Shifted(NextInt(b, pos, min, max), n)
    decreases |b| - pos
  {
    if pos < |b| {
      NextIntOfTail(all, n, b, pos + 1, min, max);
      assert all[n + pos] == b[pos];
    }
  }

  lemma NextIntOfSecond(all: seq<string>, a: seq<string>, b: seq<string>, pos: nat, min: int, max: int)
    requires Joined(all, a, b) && pos <= |b|
    ensures NextInt(all, |a| + pos, min, max) == Shifted(NextInt(b, pos, min, max), |a|)
  {
    NextIntOfTail(all, |a|, b, pos, min, max);
  }

  /** An entry that does not wait for its value and does not leave the menu. */
  predicate CanGo(e: Entry) {
    match e
    case NewInterval(ms) => ms.Some?
    case NewDuration(ms) => ms.Some?
    case Exit => false
    case _ => true
  }

  ghost predicate Goes(es: seq<Entry>) {
    forall k :: 0 <= k < |es| ==> CanGo(es[k])
  }

  lemma ChoiceOfFirst(all: seq<string>, a: seq<string>, b: seq<string>, choice: int, pos: nat)
    requires Joined(all, a, b) && pos <= |a| && CanGo(ReadChoice(choice, a, pos).0)
    ensures ReadChoice(choice, all, pos) == ReadChoice(choice, a, pos)
  {
    NextIntOfFirst(all, a, b, pos, 100, 3600000);
    NextIntOfFirst(all, a, b, pos, 1000, 86400000);
  }

  lemma ChoiceOfSecond(all: seq<string>, a: seq<string>, b: seq<string>, choice: int, pos: nat)
    requires Joined(all, a, b) && pos <= |b|
    ensures ReadChoice(choice, all, |a| + pos) == (ReadChoice(choice, b, pos).0, |a| + ReadChoice(choice, b, pos).1)
  {
    NextIntOfSecond(all, a, b, pos, 100, 3600000);
    NextIntOfSecond(all, a, b, pos, 1000, 86400000);
  }

  /** What is read at each position. */
  type Reads = rs: seq<(Option<Entry>, nat)> |
    rs != [] && forall p :: 0 <= p < |rs| && rs[p].0.Some? ==> p < rs[p].1 < |rs| witness [(None, 0)]

  function ReadAll(lines: seq<string>): (rs: Reads)
    ensures |rs| == |lines| + 1
  {
    seq(|lines| + 1, p requires 0 <= p <= |lines| => ReadEntry(lines, p))
  }

  function EntriesOf(rs: Reads, pos: nat): seq<Entry>
    requires pos < |rs|
    decreases |rs| - pos
  {
    if rs[pos].0.None? then []
    else if rs[pos].0.value == Exit then [Exit]
    else [rs[pos].0.value] + EntriesOf(rs, rs[pos].1)
  }

  lemma ReadAllAt(lines: seq<string>, p: nat)
    requires p <= |lines|
    ensures ReadAll(lines)[p] == ReadEntry(lines, p)
  {
  }

  lemma {:induction false} EntriesAreOf(lines: seq<string>, pos: nat)
    requires pos <= |lines|
    ensures Entries(lines, pos) == EntriesOf(ReadAll(lines), pos)
    decreases |lines| - pos
  {
    var (e, rest) := ReadEntry(lines, pos);
    assert ReadAll(lines)[pos] == (e, rest);
    if e.Some? && e.value != Exit {
      EntriesAreOf(lines, rest);
    }
  }

  /** Reading from the second part of the input is reading it alone. */
  ghost predicate SecondReads(all: Reads, n: nat, b: Reads) {
    n + |b| == |all| && forall p: nat :: p < |b| ==> ReadsShifted(all, n, b, p)
  }

  ghost predicate ReadsShifted(all: Reads, n: nat, b: Reads, p: nat)
    requires n + |b| == |all| && p < |b|
  {
    all[n + p] == (b[p].0, n + b[p].1)
  }

  /** Reading from the first part: what is read in full there, and what is looked for behind it. */
  ghost predicate FirstReads(all: Reads, a: Reads) {
    |a| <= |all| && forall p: nat :: p < |a| ==> ReadsSame(all, a, p)
  }

  ghost predicate ReadsSame(all: Reads, a: Reads, p: nat)
    requires |a| <= |all| && p < |a|
  {
    if a[p].0.None? then all[p] == all[|a| - 1] else CanGo(a[p].0.value) ==> all[p] == a[p]
  }

  lemma SecondPartReads(all: seq<string>, a: seq<string>, b: seq<string>, p: nat)
    requires Joined(all, a, b) && p <= |b|
    ensures ReadEntry(all, |a| + p) == (ReadEntry(b, p).0, |a| + ReadEntry(b, p).1)
  {
    NextIntOfSecond(all, a, b, p, 1, 5);
    var (choice, rest) := NextInt(b, p, 1, 5);
    if choice.Some? {
      ChoiceOfSecond(all, a, b, choice.value, rest);
    }
  }

  lemma FirstPartReads(all: seq<string>, a: seq<string>, b: seq<string>, p: nat)
    requires Joined(all, a, b) && p <= |a|
    ensures ReadEntry(a, p).0.None? ==> ReadEntry(all, p) == ReadEntry(all, |a|)
    ensures ReadEntry(a, p).0.Some? && CanGo(ReadEntry(a, p).0.value) ==> ReadEntry(all, p) == ReadEntry(a, p)
  {
    NextIntOfFirst(all, a, b, p, 1, 5);
    var (choice, rest) := NextInt(a, p, 1, 5);
    if choice.Some? && CanGo(ReadEntry(a, p).0.value) {
      ChoiceOfFirst(all, a, b, choice.value, rest);
    }
  }

  lemma FirstIsSame(all: seq<string>, a: seq<string>, b: seq<string>, p: nat)
    requires Joined(all, a, b) && p <= |a|
    ensures ReadsSame(ReadAll(all), ReadAll(a), p)
  {
    ReadAllAt(all, p);
    ReadAllAt(all, |a|);
    ReadAllAt(a, p);
    FirstPartReads(all, a, b, p);
  }

  lemma FirstIsRead(all: seq<string>, a: seq<string>, b: seq<string>)
    requires Joined(all, a, b)
    ensures FirstReads(ReadAll(all), ReadAll(a))
  {
    var rs, qs := ReadAll(all), ReadAll(a);
    forall p: nat | p < |qs|
      ensures ReadsSame(rs, qs, p)
    {
      FirstIsSame(all, a, b, p);
    }
  }

  lemma SecondIsShifted(all: seq<string>, a: seq<string>, b: seq<string>, p: nat)
    requires Joined(all, a, b) && p <= |b|
    ensures ReadsShifted(ReadAll(all), |a|, ReadAll(b), p)
  {
    ReadAllAt(all, |a| + p);
    ReadAllAt(b, p);
    SecondPartReads(all, a, b, p);
  }

  lemma SecondIsRead(all: seq<string>, a: seq<string>, b: seq<string>)
    requires Joined(all, a, b)
    ensures SecondReads(ReadAll(all), |a|, ReadAll(b))
  {
    var rs, qs := ReadAll(all), ReadAll(b);
    forall p: nat | p < |qs|
      ensures ReadsShifted(rs, |a|, qs, p)
    {
      SecondIsShifted(all, a, b, p);
    }
  }

  lemma {:induction false} EntriesOfSecond(all: Reads, n: nat, b: Reads, p: nat)
    requires SecondReads(all, n, b) && p < |b|
    ensures EntriesOf(all, n + p) == EntriesOf(b, p)
    decreases |b| - p
  {
    assert ReadsShifted(all, n, b, p);
    if b[p].0.Some? && b[p].0.value != Exit {
      EntriesOfSecond(all, n, b, b[p].1);
    }
  }

  lemma {:induction false} EntriesOfFirst(all: Reads, a: Reads, b: Reads, p: nat)
    requires FirstReads(all, a) && SecondReads(all, |a| - 1, b) && p < |a| && Goes(EntriesOf(a, p))
    ensures EntriesOf(all, p) == EntriesOf(a, p) + EntriesOf(b, 0)
    decreases |a| - p
  {
    assert ReadsSame(all, a, p);
    if a[p].0.None? {
      EntriesOfSecond(all, |a| - 1, b, 0);
    } else {
      var es := EntriesOf(a, p);
      assert CanGo(es[0]) && a[p].0.value != Exit;
      var rest := EntriesOf(a, a[p].1);
      assert forall k :: 0 <= k < |rest| ==> es[k + 1] == rest[k];
      EntriesOfFirst(all, a, b, a[p].1);
      assert es + EntriesOf(b, 0) == [es[0]] + (rest + EntriesOf(b, 0));
    }
  }

  lemma EntriesCompose(a: seq<string>, b: seq<string>)
    requires Goes(Entries(a, 0))
    ensures Entries(a + b, 0) == Entries(a, 0) + Entries(b, 0)
  {
    EntriesAreOf(a, 0);
    EntriesAreOf(b, 0);
    EntriesAreOf(a + b, 0);
    FirstIsRead(a + b, a, b);
    SecondIsRead(a + b, a, b);
    EntriesOfFirst(ReadAll(a + b), ReadAll(a), ReadAll(b), 0);
  }

  lemma {:induction false} CallsCompose(c: Cfg, a: seq<Entry>, b: seq<Entry>)
    ensures CallsFrom(c, a + b, 0) == CallsFrom(c, a, 0) + CallsFrom(After(c, a, |a|), b, 0)
    decreases |a|
  {
    if a == [] {
      assert a + b == b;
    } else {
      var e, rest := a[0], a[1..];
      assert a == [e] + rest && a + b == [e] + (rest + b);
      CallsOfFirst(c, e, rest);
      CallsOfFirst(c, e, rest + b);
      CallsCompose(Applied(c, e), rest, b);
      AfterSuffix(c, a, e, rest, |rest|);
      CallsJoin(CallOf(c, e), CallsFrom(Applied(c, e), rest, 0), CallsFrom(After(c, a, |a|), b, 0));
    }
  }

  /** The session in terms of the entries typed. */
  lemma MenuOnEntries(c: Cfg, lines: seq<string>, es: seq<Entry>)
    requires es == Entries(lines, 0)
    ensures Menu(c, lines, 0, []).calls == CallsFrom(c, es, 0)
    ensures Menu(c, lines, 0, []).success <==> es != [] && es[|es| - 1] == Exit
  {
    MenuIsCalls(c, lines, 0, []);
  }

  /** If the input ends at the menu, more input goes on from the settings that have been made. */
  lemma SessionsCompose(c: Cfg, a: seq<string>, b: seq<string>)
    requires Goes(Entries(a, 0))
    ensures var d := After(c, Entries(a, 0), |Entries(a, 0)|);
            && Menu(c, a + b, 0, []).calls == Menu(c, a, 0, []).calls + Menu(d, b, 0, []).calls
            && (Menu(c, a + b, 0, []).success <==> Menu(d, b, 0, []).success)
  {
    var es, more := Entries(a, 0), Entries(b, 0);
    var d := After(c, es, |es|);
    EntriesCompose(a, b);
    CallsCompose(c, es, more);
    MenuOnEntries(c, a + b, es + more);
    MenuOnEntries(c, a, es);
    MenuOnEntries(d, b, more);
    assert more != [] ==> (es + more)[|es + more| - 1] == more[|more| - 1];
    assert more == [] ==> es + more == es;
  }

  // ---------------------------------------------------------------------------------------------
  // Every session can be typed

  /** The lines that a user types for an entry. */
  function LinesOf(e: Entry): seq<string> {
    match e
    case Monitor => ["1"]
    case NewInterval(ms) => ["2"] + ValueOf(ms)
    case NewDuration(ms) => ["3"] + ValueOf(ms)
    case Show => ["4"]
    case Exit => ["5"]
  }

  function ValueOf(ms: Option<int>): seq<string> {
    if ms.Some? then [Decimal(ms.value)] else []
  }

  function Typed(es: seq<Entry>): seq<string> {
    if es == [] then [] else LinesOf(es[0]) + Typed(es[1..])
  }

  /** An entry with a value that the prompt accepts. */
  predicate CanBeTyped(e: Entry) {
    match e
    case NewInterval(ms) => ms.Some? && 100 <= ms.value <= 3600000
    case NewDuration(ms) => ms.Some? && 1000 <= ms.value <= 86400000
    case _ => true
  }

  lemma TypedNumber(lines: seq<string>, pos: nat, n: int, min: int, max: int)
    requires pos < |lines| && lines[pos] == Decimal(n) && LONG_MIN <= min <= n <= max <= LONG_MAX
    ensures NextInt(lines, pos, min, max) == (Some(n), pos + 1)
  {
    ParseDecimal(n, min, max);
  }

  function ChoiceOf(e: Entry): int {
    match e
    case Monitor => 1
    case NewInterval(_) => 2
    case NewDuration(_) => 3
    case Show => 4
    case Exit => 5
  }

  lemma TypedEntry(e: Entry)
    requires CanBeTyped(e)
    ensures ReadEntry(LinesOf(e), 0) == (Some(e), |LinesOf(e)|)
  {
    var lines := LinesOf(e);
    assert Decimal(1) == "1" && Decimal(2) == "2" && Decimal(3) == "3" && Decimal(4) == "4" && Decimal(5) == "5";
    TypedNumber(lines, 0, ChoiceOf(e), 1, 5);
    if e.NewInterval? {
      TypedNumber(lines, 1, e.ms.value, 100, 3600000);
    } else if e.NewDuration? {
      TypedNumber(lines, 1, e.ms.value, 1000, 86400000);
    }
  }

  lemma TypedAlone(e: Entry)
    requires CanBeTyped(e)
    ensures Entries(LinesOf(e), 0) == [e]
  {
    TypedEntry(e);
    assert ReadEntry(LinesOf(e), |LinesOf(e)|).0.None?;
  }

  /** What is typed is what is read. */
  lemma {:induction false} TypedIsRead(es: seq<Entry>)
    requires forall k :: 0 <= k < |es| ==> CanBeTyped(es[k])
    requires forall k :: 0 <= k < |es| - 1 ==> es[k] != Exit
    ensures Entries(Typed(es), 0) == es
  {
    if es != [] {
      TypedAlone(es[0]);
      if es[0] == Exit {
        assert es == [Exit] && Typed(es[1..]) == [] && LinesOf(Exit) + [] == LinesOf(Exit);
      } else {
        TypedIsRead(es[1..]);
        EntriesCompose(LinesOf(es[0]), Typed(es[1..]));
        assert es == [es[0]] + es[1..];
      }
    }
  }

  /** Every list of entries with admissible values, typed in full, is the session that it describes. */
  lemma TypedSession(c: Cfg, es: seq<Entry>)
    requires forall k :: 0 <= k < |es| ==> CanBeTyped(es[k])
    requires forall k :: 0 <= k < |es| - 1 ==> es[k] != Exit
    ensures IsSession(c, es, Menu(c, Typed(es), 0, []))
  {
    TypedIsRead(es);
    MenuMeans(c, Typed(es));
  }
}
