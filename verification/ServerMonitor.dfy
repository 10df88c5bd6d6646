/** The program of server_monitor.c: start-up, the menu loop and the monitoring calls they make. */
module ServerMonitor {
  import opened Common
  import opened Strtol
  import opened MonitorConfig
  import opened ConfigLaws
  import opened Clocks
  import opened Sampling

  /** One call of monitor_server_health. */
  datatype Call = Call(cfg: Cfg, live: bool)

  /** A validated configuration never asks for more samples than the largest iteration count. */
  lemma WithinMaxIterations(c: Cfg)
    requires Limits(c)
    ensures 0 < CeilDiv(c.duration, c.interval) <= MAX_ITERATIONS
  {
    CeilDivAbove(1, c.duration, c.interval);
    assert MAX_DURATION == MAX_ITERATIONS * MIN_INTERVAL <= MAX_ITERATIONS * c.interval;
    CeilDivBelow(c.duration, c.interval, MAX_ITERATIONS);
  }

  /** What a monitoring call does: its status, what it does with the clock, and the indices that a
      live display shows. */
  datatype Monitoring = Monitoring(status: Status, log: Log, shown: seq<int>)

  ghost predicate Monitored(c: Cfg, m: Monitoring) {
    if c.iterations > 0 then
      && m.log.readings == [] && m.shown == []
      && CountedRun(m.status, m.log.taken, m.log.sleeps, c.interval, c.iterations)
    else
      && c.interval > 0
      && TimedRun(m.status, m.log.readings, m.log.taken, m.log.sleeps, m.shown, c.interval, c.duration)
  }

  /** The clock never fails when the time is already up. */
  ghost predicate NoLateFailure(c: Cfg, m: Monitoring) {
    c.iterations > 0 || !LateFailure(m.log.readings, c.duration)
  }

  /** A call keeps its interval and never takes more samples than the largest iteration count. */
  lemma MonitoringBounds(c: Cfg, m: Monitoring)
    requires Limits(c) && Monitored(c, m) && NoLateFailure(c, m)
    ensures Spaced(m.log.taken, c.interval) && |m.log.taken| <= MAX_ITERATIONS
    ensures c.iterations == 0 ==> StartInTime(m.log.taken, m.log.readings[0].at, c.duration)
    ensures c.iterations == 0 ==> |m.log.taken| <= CeilDiv(c.duration, c.interval)
    ensures c.iterations > 0 && m.status == Ok ==> |m.log.taken| == c.iterations
  {
    if c.iterations == 0 {
      RunIsWellTimed(m.status, m.log.readings, m.log.taken, m.log.sleeps, m.shown, c.interval, c.duration);
      SampleBound(m.log.readings, c.interval, c.duration);
      WithinMaxIterations(c);
    } else {
      CountedRunIsSpaced(m.status, m.log.taken, m.log.sleeps, c.interval, c.iterations);
    }
  }

  /** If every reading succeeds, no failure is late. */
  lemma WorkingClock(c: Cfg, m: Monitoring)
    requires forall i :: 0 <= i < |m.log.readings| ==> m.log.readings[i].readable
    ensures NoLateFailure(c, m)
  {
  }

  /** monitor_server_health for a configuration that start-up or the menu has let through. */
  method MonitorServerHealth(clock: Clock, c: Cfg) returns (status: Status, shown: seq<int>, ghost m: Monitoring)
    requires Limits(c)
    modifies clock
    ensures m.status == status && m.shown == shown && Monitored(c, m)
    ensures clock.History() == old(clock.History()).Plus(m.log)
  {
    ghost var taken, sleeps;
    if c.iterations > 0 {
      status, taken, sleeps := RunIterations(clock, c.interval, c.iterations);
      shown := [];
      m := Monitoring(status, Log([], taken, sleeps), []);
    } else {
      ghost var readings;
      status, shown, readings, taken, sleeps := RunDuration(clock, c.interval, c.duration);
      m := Monitoring(status, Log(readings, taken, sleeps), shown);
    }
  }

  function AllLogs(runs: seq<Monitoring>): Log {
    if runs == [] then Log([], [], []) else AllLogs(runs[..|runs| - 1]).Plus(runs[|runs| - 1].log)
  }

  /** The calls have run one after the other, and the clock has seen nothing else. */
  ghost predicate Accounted(calls: seq<Call>, runs: seq<Monitoring>, before: Log, after: Log) {
    && |runs| == |calls|
    && (forall k :: 0 <= k < |calls| ==> Monitored(calls[k].cfg, runs[k]))
    && after == before.Plus(AllLogs(runs))
  }

  lemma OneMoreRun(calls: seq<Call>, runs: seq<Monitoring>, before: Log, after: Log, call: Call, m: Monitoring)
    requires Accounted(calls, runs, before, after) && Monitored(call.cfg, m)
    ensures Accounted(calls + [call], runs + [m], before, after.Plus(m.log))
  {
    assert (runs + [m])[..|runs + [m]| - 1] == runs;
    PlusAssociates(before, AllLogs(runs), m.log);
  }

  // ---------------------------------------------------------------------------------------------
  // The menu

  /** get_integer_input: the first line from pos on that is a number in range, and what follows it. */
  function NextInt(lines: seq<string>, pos: nat, min: int, max: int): (r: (Option<int>, nat))
    requires pos <= |lines|
    ensures pos <= r.1 <= |lines|
    ensures r.0.Some? ==> pos < r.1
    ensures r.0.Some? && LONG_MIN <= min && max <= LONG_MAX ==> min <= r.0.value <= max
    decreases |lines| - pos
  {
    if pos == |lines| then (None, pos)
    else
      var p := ParseInt(lines[pos], min, max);
      if p.status == Ok then (Some(p.value), pos + 1) else NextInt(lines, pos + 1, min, max)
  }

  method GetIntegerInput(lines: seq<string>, pos: nat, min: int, max: int)
    returns (status: Status, value: int, pos': nat)
    requires pos <= |lines|
    ensures var next := NextInt(lines, pos, min, max);
            pos' == next.1 && (status == Ok <==> next.0.Some?) && (status == Ok ==> value == next.0.value)
    ensures status == Ok || status == IoError
  {
    var out := new Cell(0);
    pos' := pos;
    while pos' < |lines|
      invariant pos <= pos' <= |lines|
      invariant NextInt(lines, pos', min, max) == NextInt(lines, pos, min, max)
    {
      status := ParseIntRange(lines[pos'], min, max, out);
      pos' := pos' + 1;
      if status == Ok {
        return status, out.value, pos';
      }
    }
    return IoError, 0, pos';
  }

  /** A new interval or duration is taken over only if interval <= duration stays true. */
  function WithInterval(c: Cfg, ms: Option<int>): Cfg {
    if ms.Some? && ms.value <= c.duration then c.(interval := ms.value) else c
  }

  function WithDuration(c: Cfg, ms: Option<int>): Cfg {
    if ms.Some? && ms.value >= c.interval then c.(duration := ms.value) else c
  }

  datatype Session = Session(success: bool, calls: seq<Call>)

  /** The menu session on the input from pos on. */
  function Menu(c: Cfg, lines: seq<string>, pos: nat, calls: seq<Call>): Session
    requires pos <= |lines|
    decreases |lines| - pos
  {
    var (choice, rest) := NextInt(lines, pos, 1, 5);
    if choice.None? then Session(false, calls)
    else if choice.value == 1 then Menu(c, lines, rest, calls + [Call(c, true)])
    else if choice.value == 2 then
      var (ms, rest') := NextInt(lines, rest, MIN_INTERVAL, MAX_INTERVAL);
      Menu(WithInterval(c, ms), lines, rest', calls)
    else if choice.value == 3 then
      var (ms, rest') := NextInt(lines, rest, MIN_DURATION, MAX_DURATION);
      Menu(WithDuration(c, ms), lines, rest', calls)
    else if choice.value == 4 then Menu(c, lines, rest, calls)
    else Session(true, calls)
  }

  /** What holds of the configuration while the menu runs. */
  predicate MenuInv(c: Cfg) {
    Limits(c) && c.iterations == 0 && c.interval <= c.duration
  }

  lemma MenuStepKeepsInv(c: Cfg, lines: seq<string>, pos: nat)
    requires MenuInv(c) && pos <= |lines|
    ensures MenuInv(WithInterval(c, NextInt(lines, pos, MIN_INTERVAL, MAX_INTERVAL).0))
    ensures MenuInv(WithDuration(c, NextInt(lines, pos, MIN_DURATION, MAX_DURATION).0))
  {
  }

  /** A call that main may make: the configuration is valid, and a live one has no iteration count. */
  predicate GoodCall(call: Call) {
    && Limits(call.cfg) && Validate(call.cfg) == Ok
    && (call.live ==> call.cfg.iterations == 0 && call.cfg.interval <= call.cfg.duration)
    && (!call.live ==> call.cfg.nonInteractive)
  }

  ghost predicate AllGood(calls: seq<Call>) {
    forall k :: 0 <= k < |calls| ==> GoodCall(calls[k])
  }

  /** Whatever is typed, the menu monitors valid configurations only. */
  lemma {:induction false} MenuCallsAreGood(c: Cfg, lines: seq<string>, pos: nat, calls: seq<Call>)
    requires MenuInv(c) && pos <= |lines| && AllGood(calls)
    ensures AllGood(Menu(c, lines, pos, calls).calls)
    decreases |lines| - pos
  {
    var (choice, rest) := NextInt(lines, pos, 1, 5);
    if choice.Some? {
      if choice.value == 1 {
        assert GoodCall(Call(c, true));
        MenuCallsAreGood(c, lines, rest, calls + [Call(c, true)]);
      } else if choice.value == 2 {
        MenuStepKeepsInv(c, lines, rest);
        var (ms, rest') := NextInt(lines, rest, MIN_INTERVAL, MAX_INTERVAL);
        MenuCallsAreGood(WithInterval(c, ms), lines, rest', calls);
      } else if choice.value == 3 {
        MenuStepKeepsInv(c, lines, rest);
        var (ms, rest') := NextInt(lines, rest, MIN_DURATION, MAX_DURATION);
        MenuCallsAreGood(WithDuration(c, ms), lines, rest', calls);
      } else if choice.value == 4 {
        MenuCallsAreGood(c, lines, rest, calls);
      }
    }
  }

  /** The menu's call of monitor_server_health, whatever its status. */
  method MonitorFromMenu(clock: Clock, c: Cfg, calls: seq<Call>, ghost runs: seq<Monitoring>, ghost before: Log)
    returns (calls': seq<Call>, ghost runs': seq<Monitoring>)
    requires MenuInv(c) && Accounted(calls, runs, before, clock.History())
    modifies clock
    ensures calls' == calls + [Call(c, true)]
    ensures Accounted(calls', runs', before, clock.History())
  {
    var status, shown, m := MonitorServerHealth(clock, c);
    OneMoreRun(calls, runs, before, old(clock.History()), Call(c, true), m);
    calls', runs' := calls + [Call(c, true)], runs + [m];
  }

  method SetInterval(config: Config, lines: seq<string>, pos: nat) returns (pos': nat)
    requires pos <= |lines|
    modifies config
    ensures var next := NextInt(lines, pos, MIN_INTERVAL, MAX_INTERVAL);
            config.View() == WithInterval(old(config.View()), next.0) && pos' == next.1
  {
    var status, newInterval;
    status, newInterval, pos' := GetIntegerInput(lines, pos, MIN_INTERVAL, MAX_INTERVAL);
    if status == Ok && newInterval <= config.durationMs {
      config.intervalMs := newInterval;
    }
  }

  method SetDuration(config: Config, lines: seq<string>, pos: nat) returns (pos': nat)
    requires pos <= |lines|
    modifies config
    ensures var next := NextInt(lines, pos, MIN_DURATION, MAX_DURATION);
            config.View() == WithDuration(old(config.View()), next.0) && pos' == next.1
  {
    var status, newDuration;
    status, newDuration, pos' := GetIntegerInput(lines, pos, MIN_DURATION, MAX_DURATION);
    if status == Ok && newDuration >= config.intervalMs {
      config.durationMs := newDuration;
    }
  }

  method RunMenu(config: Config, lines: seq<string>, clock: Clock)
    returns (success: bool, calls: seq<Call>, ghost runs: seq<Monitoring>)
    requires MenuInv(config.View())
    modifies config, clock
    ensures Session(success, calls) == Menu(old(config.View()), lines, 0, [])
    ensures AllGood(calls)
    ensures Accounted(calls, runs, old(clock.History()), clock.History())
  {
    MenuCallsAreGood(config.View(), lines, 0, []);
    calls, runs := [], [];
    var pos := 0;
    while true
      invariant pos <= |lines| && MenuInv(config.View())
      invariant Menu(config.View(), lines, pos, calls) == Menu(old(config.View()), lines, 0, [])
      invariant Accounted(calls, runs, old(clock.History()), clock.History())
      decreases |lines| - pos
    {
      MenuStepKeepsInv(config.View(), lines, pos);
      var status, choice;
      status, choice, pos := GetIntegerInput(lines, pos, 1, 5);
      if status != Ok {
        return false, calls, runs;
      }
      MenuStepKeepsInv(config.View(), lines, pos);
      match choice
      case 1 =>
        calls, runs := MonitorFromMenu(clock, config.View(), calls, runs, old(clock.History()));
      case 2 =>
        pos := SetInterval(config, lines, pos);
      case 3 =>
        pos := SetDuration(config, lines, pos);
      case 4 =>
      case _ =>
        return true, calls, runs;
    }
  }

  // ---------------------------------------------------------------------------------------------
  // The program

  /** The configuration and status after the environment and the arguments. */
  function Startup(env: Env, argv: seq<string>): Outcome {
    var c := ApplyEnv(DEFAULTS, env).1;
    if argv == [] then Outcome(Ok, false, c) else ParseFrom(c, argv, 1)
  }

  /** Environment, even a refused one, and arguments leave a configuration within the limits, so that
      start-up validation can only fail because the duration is shorter than the interval. */
  lemma StartupKeepsLimits(env: Env, argv: seq<string>)
    ensures Limits(Startup(env, argv).cfg)
    ensures var c := Startup(env, argv).cfg;
            Validate(c) != Ok <==> c.duration < c.interval && c.iterations == 0
  {
    EnvKeepsLimits(DEFAULTS, env);
    if argv != [] {
      ArgsKeepLimits(ApplyEnv(DEFAULTS, env).1, argv, 1);
    }
    WhenValidationFails(Startup(env, argv).cfg);
  }

  /** The one monitoring call of the non-interactive mode. */
  method MonitorOnce(clock: Clock, c: Cfg) returns (success: bool, calls: seq<Call>, ghost runs: seq<Monitoring>)
    requires Limits(c) && Validate(c) == Ok && c.nonInteractive
    modifies clock
    ensures calls == [Call(c, false)] && AllGood(calls)
    ensures Accounted(calls, runs, old(clock.History()), clock.History())
    ensures success <==> runs[0].status == Ok
  {
    var status, shown, m := MonitorServerHealth(clock, c);
    OneMoreRun([], [], old(clock.History()), old(clock.History()), Call(c, false), m);
    assert GoodCall(Call(c, false));
    calls, runs := [Call(c, false)], [m];
    success := status == Ok;
  }

  /** main.  The live output of the fixed-count mode is never reached: no live call has an iteration
      count. */
  method RunProgram(env: Env, argv: seq<string>, lines: seq<string>, clock: Clock)
    returns (success: bool, calls: seq<Call>, ghost runs: seq<Monitoring>)
    modifies clock
    ensures AllGood(calls)
    ensures Accounted(calls, runs, old(clock.History()), clock.History())
    ensures forall k :: 0 <= k < |calls| && calls[k].live ==> calls[k].cfg.iterations == 0
    ensures var o := Startup(env, argv);
            && (o.status != Ok ==> !success && calls == [])
            && (o.status == Ok && o.help ==> success && calls == [])
            && (o.status == Ok && !o.help && Validate(o.cfg) != Ok ==> !success && calls == [])
            && (o.status == Ok && !o.help && Validate(o.cfg) == Ok && o.cfg.nonInteractive ==>
                  calls == [Call(o.cfg, false)] && (success <==> runs[0].status == Ok))
            && (o.status == Ok && !o.help && Validate(o.cfg) == Ok && !o.cfg.nonInteractive ==>
                  Session(success, calls) == Menu(o.cfg, lines, 0, []))
  {
    calls, runs := [], [];
    var config := new Config();
    var showHelp := new Cell(false);
    StartupKeepsLimits(env, argv);
    var status := config.ApplyEnvironment(env);
    status := config.ApplyArgs(argv, showHelp);
    if status != Ok {
      return false, calls, runs;
    }
    if showHelp.value {
      return true, calls, runs;
    }
    status := Validate(config.View());
    if status != Ok {
      return false, calls, runs;
    }
    if config.nonInteractive {
      success, calls, runs := MonitorOnce(clock, config.View());
      return;
    }
    success, calls, runs := RunMenu(config, lines, clock);
  }
}
