/** Laws of the command line: parsing composes, later options win, different options commute, and
    every valid configuration can be written as an argument list. */
module ConfigLaws {
  import opened Common
  import opened Strtol
  import opened MonitorConfig

  ghost predicate Accepted(o: Outcome) {
    o.status == Ok && !o.help
  }

  // ---------------------------------------------------------------------------------------------
  // Parsing as a run over what each position makes the loop do

  /** No action uses arguments behind the end, and one that stops refuses or asks for help. */
  ghost predicate Fits(acts: seq<Action>) {
    forall i :: 0 <= i < |acts| ==>
      if acts[i].Take? then 0 < acts[i].used <= |acts| - i else acts[i].status != Ok || acts[i].help
  }

  ghost predicate Limited(acts: seq<Action>) {
    forall i :: 0 <= i < |acts| && acts[i].Take? ==> InLimits(acts[i].update)
  }

  function Actions(args: seq<string>): (acts: seq<Action>)
    ensures |acts| == |args| && Fits(acts) && Limited(acts)
  {
    seq(|args|, i requires 0 <= i < |args| => ActionAt(args, i))
  }

  ghost function Run(c: Cfg, acts: seq<Action>, i: nat): Outcome
    requires Fits(acts) && i <= |acts|
    decreases |acts| - i
  {
    if i == |acts| then Outcome(Ok, false, c)
    else
      match acts[i]
      case StopWith(status, help) => Outcome(status, help, c)
      case Take(update, used) => Run(ApplyUpdate(c, update), acts, i + used)
  }

  lemma {:induction false} ParseIsRun(c: Cfg, args: seq<string>, i: nat)
    requires i <= |args|
    ensures ParseFrom(c, args, i) == Run(c, Actions(args), i)
    decreases |args| - i
  {
    if i < |args| {
      var action := Actions(args)[i];
      if action.Take? {
        ParseIsRun(ApplyUpdate(c, action.update), args, i + action.used);
      }
    }
  }

  // ---------------------------------------------------------------------------------------------
  // Parsing composes

  /** What is in front of an argument and what comes behind its value do not matter to it. */
  lemma ActionIsLocal(all: seq<string>, offset: nat, args: seq<string>, i: nat)
    requires offset + |args| <= |all| && all[offset..offset + |args|] == args && i < |args|
    ensures ActionAt(args, i).Take? ==> ActionAt(all, offset + i) == ActionAt(args, i)
    ensures offset + |args| == |all| ==> ActionAt(all, offset + i) == ActionAt(args, i)
  {
    assert all[offset + i] == all[offset..offset + |args|][i];
    if i + 1 < |args| {
      assert all[offset + i + 1] == all[offset..offset + |args|][i + 1];
    }
  }

  lemma {:induction false} RunOfSuffix(c: Cfg, all: seq<Action>, offset: nat, acts: seq<Action>, i: nat)
    requires Fits(all) && Fits(acts) && offset + |acts| == |all| && i <= |acts|
    requires forall j :: 0 <= j < |acts| ==> all[offset + j] == acts[j]
    ensures Run(c, all, offset + i) == Run(c, acts, i)
    decreases |acts| - i
  {
    if i < |acts| && acts[i].Take? {
      RunOfSuffix(ApplyUpdate(c, acts[i].update), all, offset, acts, i + acts[i].used);
    }
  }

  lemma {:induction false} RunOfPrefix(c: Cfg, all: seq<Action>, acts: seq<Action>, i: nat)
    requires Fits(all) && Fits(acts) && |acts| <= |all| && i <= |acts|
    requires forall j :: 0 <= j < |acts| && acts[j].Take? ==> all[j] == acts[j]
    requires Accepted(Run(c, acts, i))
    ensures Run(c, all, i) == Run(Run(c, acts, i).cfg, all, |acts|)
    decreases |acts| - i
  {
    if i < |acts| && acts[i].Take? {
      RunOfPrefix(ApplyUpdate(c, acts[i].update), all, acts, i + acts[i].used);
    }
  }

  /** The actions of one list followed by those of another, where accepted ones stay the same. */
  ghost predicate Composed(all: seq<Action>, a: seq<Action>, b: seq<Action>) {
    |all| == |a| + |b| && StartsWith(all, a) && EndsWith(all, |a|, b)
  }

  ghost predicate StartsWith(all: seq<Action>, a: seq<Action>)
    requires |a| <= |all|
  {
    forall i :: 0 <= i < |a| && a[i].Take? ==> all[i] == a[i]
  }

  ghost predicate EndsWith(all: seq<Action>, offset: nat, b: seq<Action>)
    requires offset + |b| == |all|
  {
    forall i :: 0 <= i < |b| ==> all[offset + i] == b[i]
  }

  lemma FirstActions(a: seq<string>, b: seq<string>, i: nat)
    requires i < |a| && Actions(a)[i].Take?
    ensures Actions(a + b)[i] == Actions(a)[i]
  {
    assert (a + b)[0..|a|] == a;
    ActionIsLocal(a + b, 0, a, i);
  }

  lemma LastActions(a: seq<string>, b: seq<string>, i: nat)
    requires i < |b|
    ensures Actions(a + b)[|a| + i] == Actions(b)[i]
  {
    assert (a + b)[|a|..|a| + |b|] == b;
    ActionIsLocal(a + b, |a|, b, i);
  }

  lemma ActionsStart(a: seq<string>, b: seq<string>)
    ensures StartsWith(Actions(a + b), Actions(a))
  {
    forall i: nat | i < |a| && Actions(a)[i].Take?
      ensures Actions(a + b)[i] == Actions(a)[i]
    {
      FirstActions(a, b, i);
    }
  }

  lemma ActionsEnd(a: seq<string>, b: seq<string>)
    ensures EndsWith(Actions(a + b), |a|, Actions(b))
  {
    forall i: nat | i < |b|
      ensures Actions(a + b)[|a| + i] == Actions(b)[i]
    {
      LastActions(a, b, i);
    }
  }

  lemma ActionsCompose(a: seq<string>, b: seq<string>)
    ensures Composed(Actions(a + b), Actions(a), Actions(b))
  {
    ActionsStart(a, b);
    ActionsEnd(a, b);
  }

  lemma RunsCompose(c: Cfg, all: seq<Action>, a: seq<Action>, b: seq<Action>)
    requires Fits(all) && Fits(a) && Fits(b) && Composed(all, a, b) && Accepted(Run(c, a, 0))
    ensures Run(c, all, 0) == Run(Run(c, a, 0).cfg, b, 0)
  {
    RunOfPrefix(c, all, a, 0);
    RunOfSuffix(Run(c, a, 0).cfg, all, |a|, b, 0);
  }

  /** If A is accepted, parsing A followed by B is parsing B from A's result. */
  lemma ParsingComposes(c: Cfg, a: seq<string>, b: seq<string>)
    requires Accepted(ParseArgs(c, a))
    ensures ParseArgs(c, a + b) == ParseArgs(ParseArgs(c, a).cfg, b)
  {
    ParseIsRun(c, a, 0);
    ParseIsRun(c, a + b, 0);
    ParseIsRun(ParseArgs(c, a).cfg, b, 0);
    ActionsCompose(a, b);
    RunsCompose(c, Actions(a + b), Actions(a), Actions(b));
  }

  // ---------------------------------------------------------------------------------------------
  // Later options win; different options commute

  /** x is one well-formed option, whose effect is u. */
  ghost predicate IsOption(x: seq<string>, u: Update) {
    x != [] && ActionAt(x, 0) == Take(u, |x|)
  }

  lemma ParseOption(c: Cfg, x: seq<string>, u: Update)
    requires IsOption(x, u)
    ensures ParseArgs(c, x) == Outcome(Ok, false, ApplyUpdate(c, u))
  {
    assert ParseFrom(c, x, 0) == ParseFrom(ApplyUpdate(c, u), x, |x|);
  }

  predicate SameSetting(u: Update, v: Update) {
    match u
    case SetServer(_) => v.SetServer?
    case SetInterval(_) => v.SetInterval?
    case SetDuration(_) => v.SetDuration?
    case SetIterations(_) => v.SetIterations?
    case SetNonInteractive => v.SetNonInteractive?
  }

  /** The configurations that u makes equal. */
  ghost predicate EqualAfter(u: Update, c: Cfg, d: Cfg) {
    ApplyUpdate(c, u) == ApplyUpdate(d, u)
  }

  lemma UpdateKeepsEqualAfter(u: Update, v: Update, c: Cfg, d: Cfg)
    requires EqualAfter(u, c, d)
    ensures EqualAfter(u, ApplyUpdate(c, v), ApplyUpdate(d, v))
  {
  }

  /** Whether arguments are accepted does not depend on the configuration, and configurations that
      differ only in a setting still do so afterwards. */
  lemma {:induction false} ParseKeepsEqualAfter(u: Update, c: Cfg, d: Cfg, args: seq<string>, i: nat)
    requires i <= |args| && EqualAfter(u, c, d)
    ensures ParseFrom(c, args, i).status == ParseFrom(d, args, i).status
    ensures ParseFrom(c, args, i).help == ParseFrom(d, args, i).help
    ensures EqualAfter(u, ParseFrom(c, args, i).cfg, ParseFrom(d, args, i).cfg)
    decreases |args| - i
  {
    if i < |args| {
      match ActionAt(args, i)
      case StopWith(_, _) =>
      case Take(v, used) =>
        UpdateKeepsEqualAfter(u, v, c, d);
        ParseKeepsEqualAfter(u, ApplyUpdate(c, v), ApplyUpdate(d, v), args, i + used);
    }
  }

  /** The last occurrence of a flag wins: an earlier occurrence can be removed, whatever accepted
      arguments stand between the two and whatever follows. */
  lemma LastOccurrenceWins(c: Cfg, x: seq<string>, u: Update, m: seq<string>, y: seq<string>, v: Update, b: seq<string>)
    requires IsOption(x, u) && IsOption(y, v) && SameSetting(u, v) && Accepted(ParseArgs(c, m))
    ensures ParseArgs(c, x + (m + (y + b))) == ParseArgs(c, m + (y + b))
  {
    var d := ApplyUpdate(c, u);
    assert EqualAfter(v, c, d);
    ParseOption(c, x, u);
    ParsingComposes(c, x, m + (y + b));
    ParseKeepsEqualAfter(v, c, d, m, 0);
    ParsingComposes(c, m, y + b);
    ParsingComposes(d, m, y + b);
    var e, f := ParseArgs(c, m).cfg, ParseArgs(d, m).cfg;
    ParseOption(e, y, v);
    ParseOption(f, y, v);
    ParsingComposes(e, y, b);
    ParsingComposes(f, y, b);
  }

  /** Well-formed options with different flags can be swapped. */
  lemma DifferentOptionsCommute(c: Cfg, x: seq<string>, u: Update, y: seq<string>, v: Update, b: seq<string>)
    requires IsOption(x, u) && IsOption(y, v) && !SameSetting(u, v)
    ensures ParseArgs(c, x + (y + b)) == ParseArgs(c, y + (x + b))
  {
    ParseOption(c, x, u);
    ParsingComposes(c, x, y + b);
    ParseOption(ApplyUpdate(c, u), y, v);
    ParsingComposes(ApplyUpdate(c, u), y, b);
    ParseOption(c, y, v);
    ParsingComposes(c, y, x + b);
    ParseOption(ApplyUpdate(c, v), x, u);
    ParsingComposes(ApplyUpdate(c, v), x, b);
    assert ApplyUpdate(ApplyUpdate(c, u), v) == ApplyUpdate(ApplyUpdate(c, v), u);
  }

  // ---------------------------------------------------------------------------------------------
  // Round trip

  function ServerArgs(name: string): seq<string> { ["--server", name] }
  function IntervalArgs(ms: int): seq<string> { ["--interval-ms", Decimal(ms)] }
  function DurationArgs(ms: int): seq<string> { ["--duration-ms", Decimal(ms)] }

  function ModeArgs(nonInteractive: bool, iterations: int): seq<string> {
    if iterations > 0 then ["--iterations", Decimal(iterations)]
    else if nonInteractive then ["--non-interactive"] else []
  }

  /** A configuration as an argument list. */
  function Print(c: Cfg): seq<string> {
    ServerArgs(c.server) + (IntervalArgs(c.interval) + (DurationArgs(c.duration) +
      ModeArgs(c.nonInteractive, c.iterations)))
  }

  lemma ServerOption(name: string)
    requires name != ""
    ensures IsOption(ServerArgs(name), SetServer(name))
  {
  }

  lemma IntervalOption(ms: int)
    requires MIN_INTERVAL <= ms <= MAX_INTERVAL
    ensures IsOption(IntervalArgs(ms), SetInterval(ms))
  {
    ParseDecimal(ms, MIN_INTERVAL, MAX_INTERVAL);
  }

  lemma DurationOption(ms: int)
    requires MIN_DURATION <= ms <= MAX_DURATION
    ensures IsOption(DurationArgs(ms), SetDuration(ms))
  {
    ParseDecimal(ms, MIN_DURATION, MAX_DURATION);
  }

  lemma IterationsOption(count: int)
    requires 1 <= count <= MAX_ITERATIONS
    ensures IsOption(ModeArgs(true, count), SetIterations(count))
  {
    ParseDecimal(count, 1, MAX_ITERATIONS);
  }

  lemma NonInteractiveOption()
    ensures IsOption(ModeArgs(true, 0), SetNonInteractive)
  {
  }

  lemma ParseMode(c: Cfg, nonInteractive: bool, iterations: int)
    requires 0 <= iterations <= MAX_ITERATIONS && (iterations > 0 ==> nonInteractive)
    requires !c.nonInteractive && c.iterations == 0
    ensures ParseArgs(c, ModeArgs(nonInteractive, iterations))
         == Outcome(Ok, false, c.(nonInteractive := nonInteractive, iterations := iterations))
  {
    if iterations > 0 {
      IterationsOption(iterations);
      ParseOption(c, ModeArgs(true, iterations), SetIterations(iterations));
    } else if nonInteractive {
      NonInteractiveOption();
      ParseOption(c, ModeArgs(true, 0), SetNonInteractive);
    }
  }

  /** Printing a valid configuration and parsing it from the defaults gives it back. */
  lemma RoundTrip(c: Cfg)
    requires Validate(c) == Ok && c.iterations <= MAX_ITERATIONS && 1 <= |c.server| < MAX_SERVER_NAME
    ensures ParseArgs(DEFAULTS, Print(c)) == Outcome(Ok, false, c)
  {
    var mode := ModeArgs(c.nonInteractive, c.iterations);
    var c1 := ApplyUpdate(DEFAULTS, SetServer(c.server));
    var c2 := ApplyUpdate(c1, SetInterval(c.interval));
    var c3 := ApplyUpdate(c2, SetDuration(c.duration));
    ServerOption(c.server);
    IntervalOption(c.interval);
    DurationOption(c.duration);
    ParseOption(DEFAULTS, ServerArgs(c.server), SetServer(c.server));
    ParsingComposes(DEFAULTS, ServerArgs(c.server), IntervalArgs(c.interval) + (DurationArgs(c.duration) + mode));
    ParseOption(c1, IntervalArgs(c.interval), SetInterval(c.interval));
    ParsingComposes(c1, IntervalArgs(c.interval), DurationArgs(c.duration) + mode);
    ParseOption(c2, DurationArgs(c.duration), SetDuration(c.duration));
    ParsingComposes(c2, DurationArgs(c.duration), mode);
    ParseMode(c3, c.nonInteractive, c.iterations);
  }

  // ---------------------------------------------------------------------------------------------
  // Every reachable configuration

  /** What holds of the configuration at every point of the program. */
  predicate Limits(c: Cfg) {
    && 100 <= c.interval <= 3600000
    && 1000 <= c.duration <= 86400000
    && 0 <= c.iterations <= 864000
    && (c.iterations > 0 ==> c.nonInteractive)
    && 1 <= |c.server| <= 63
  }

  lemma UpdateKeepsLimits(c: Cfg, u: Update)
    requires Limits(c) && InLimits(u)
    ensures Limits(ApplyUpdate(c, u))
  {
  }

  lemma IntKeepsLimits(c: Cfg, value: Option<string>, flag: Flag)
    requires Limits(c)
    ensures Limits(WithInt(c, value, flag).1)
    ensures flag != IterationsFlag ==> WithInt(c, value, flag).1.iterations == c.iterations
  {
    if value.Some? {
      ReadIsInLimits(flag, value.value);
    }
  }

  /** The environment, even if it is refused part-way; the switch SHM_NON_INTERACTIVE may turn the
      mode off, so that no iteration count may have been set before. */
  lemma EnvKeepsLimits(c: Cfg, env: Env)
    requires Limits(c) && c.iterations == 0
    ensures Limits(ApplyEnv(c, env).1)
  {
    var c0 := if env.server.Some? && env.server.value != "" then ApplyUpdate(c, SetServer(env.server.value)) else c;
    IntKeepsLimits(c0, env.interval, IntervalFlag);
    var c1 := WithInt(c0, env.interval, IntervalFlag).1;
    IntKeepsLimits(c1, env.duration, DurationFlag);
    var c2 := WithInt(c1, env.duration, DurationFlag).1;
    var c3 := WithBool(c2, env.nonInteractive).1;
    IntKeepsLimits(c3, env.iterations, IterationsFlag);
  }

  lemma {:induction false} ArgsKeepLimits(c: Cfg, args: seq<string>, i: nat)
    requires i <= |args| && Limits(c)
    ensures Limits(ParseFrom(c, args, i).cfg)
    decreases |args| - i
  {
    if i < |args| {
      match ActionAt(args, i)
      case StopWith(_, _) =>
      case Take(u, used) =>
        UpdateKeepsLimits(c, u);
        ArgsKeepLimits(ApplyUpdate(c, u), args, i + used);
    }
  }

  /** What validation accepts, and the status for the rest. */
  lemma ValidationMeans(c: Cfg)
    ensures Validate(c) == Ok <==>
            && 100 <= c.interval <= 3600000 && 1000 <= c.duration <= 86400000 && c.iterations >= 0
            && (c.iterations > 0 ==> c.nonInteractive)
            && (c.iterations == 0 ==> c.interval <= c.duration)
    ensures Validate(c) == InvalidArgument <==>
            && 100 <= c.interval <= 3600000 && 1000 <= c.duration <= 86400000
            && c.iterations > 0 && !c.nonInteractive
    ensures Validate(c) in {Ok, InvalidArgument, RangeError}
  {
  }

  /** Within the limits, validation fails exactly if the duration is shorter than the interval and
      no iteration count is set. */
  lemma WhenValidationFails(c: Cfg)
    requires Limits(c)
    ensures Validate(c) == Ok <==> !(c.duration < c.interval && c.iterations == 0)
    ensures Validate(c) != Ok ==> Validate(c) == RangeError
  {
  }
}
