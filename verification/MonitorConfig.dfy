/** The configuration of monitor_config.c: defaults, environment, command line and validation. */
module MonitorConfig {
  import opened Common
  import opened Strtol

  const DEFAULT_INTERVAL := 1000
  const DEFAULT_DURATION := 60000
  const MIN_INTERVAL := 100
  const MAX_INTERVAL := 3600000
  const MIN_DURATION := 1000
  const MAX_DURATION := 86400000
  const MAX_SERVER_NAME := 64
  const MAX_ITERATIONS := MAX_DURATION / MIN_INTERVAL

  datatype Cfg = Cfg(server: string, interval: int, duration: int, nonInteractive: bool, iterations: int)

  const DEFAULTS := Cfg("local", DEFAULT_INTERVAL, DEFAULT_DURATION, false, 0)

  /** snprintf into server_name. */
  function Truncate(name: string): string {
    if |name| < MAX_SERVER_NAME then name else name[..MAX_SERVER_NAME - 1]
  }

  // ---------------------------------------------------------------------------------------------
  // parse_bool

  function ToLower(c: char): char {
    if 'A' <= c <= 'Z' then c - 'A' + 'a' else c
  }

  /** strcasecmp(s, word) == 0 for a lower-case word. */
  predicate EqualsIgnoringCase(s: string, word: string) {
    |s| == |word| && forall i :: 0 <= i < |s| ==> ToLower(s[i]) == word[i]
  }

  function ParseBool(value: string): Option<bool> {
    if value == "1" || EqualsIgnoringCase(value, "true") || EqualsIgnoringCase(value, "yes")
       || EqualsIgnoringCase(value, "on") then Some(true)
    else if value == "0" || EqualsIgnoringCase(value, "false") || EqualsIgnoringCase(value, "no")
            || EqualsIgnoringCase(value, "off") then Some(false)
    else None
  }

  /** The words are recognised in any mixture of cases. */
  lemma ParseBoolIgnoresCase(s: string, t: string)
    requires |s| == |t| && forall i :: 0 <= i < |s| ==> ToLower(s[i]) == ToLower(t[i])
    ensures ParseBool(s) == ParseBool(t)
  {
    assert s == "1" ==> t[0] == '1';
    assert s == "0" ==> t[0] == '0';
  }

  // ---------------------------------------------------------------------------------------------
  // One setting at a time

  datatype Update =
    | SetServer(name: string)
    | SetInterval(ms: int)
    | SetDuration(ms: int)
    | SetIterations(count: int)
    | SetNonInteractive

  /** The iteration count implies non-interactive mode. */
  function ApplyUpdate(c: Cfg, u: Update): Cfg {
    match u
    case SetServer(name) => c.(server := Truncate(name))
    case SetInterval(ms) => c.(interval := ms)
    case SetDuration(ms) => c.(duration := ms)
    case SetIterations(count) => c.(iterations := count, nonInteractive := true)
    case SetNonInteractive => c.(nonInteractive := true)
  }

  /** An update within the limits that every source of settings enforces. */
  predicate InLimits(u: Update) {
    match u
    case SetServer(name) => name != ""
    case SetInterval(ms) => MIN_INTERVAL <= ms <= MAX_INTERVAL
    case SetDuration(ms) => MIN_DURATION <= ms <= MAX_DURATION
    case SetIterations(count) => 1 <= count <= MAX_ITERATIONS
    case SetNonInteractive => true
  }

  // ---------------------------------------------------------------------------------------------
  // The command line

  datatype Flag = HelpFlag | NonInteractiveFlag | ServerFlag | IntervalFlag | DurationFlag | IterationsFlag | NoFlag

  function FlagOf(arg: string): Flag {
    if arg == "--help" || arg == "-h" then HelpFlag
    else if arg == "--non-interactive" then NonInteractiveFlag
    else if arg == "--server" then ServerFlag
    else if arg == "--interval-ms" then IntervalFlag
    else if arg == "--duration-ms" then DurationFlag
    else if arg == "--iterations" then IterationsFlag
    else NoFlag
  }

  /** What the value of a flag stands for. */
  datatype ValueRead = Read(update: Update) | Refused(status: Status)

  function ReadInt(p: Parse, update: Update): ValueRead {
    if p.status == Ok then Read(update) else Refused(p.status)
  }

  function ReadValue(flag: Flag, value: string): ValueRead {
    match flag
    case ServerFlag => if value == "" then Refused(InvalidArgument) else Read(SetServer(value))
    case IntervalFlag =>
      var p := ParseInt(value, MIN_INTERVAL, MAX_INTERVAL); ReadInt(p, SetInterval(p.value))
    case DurationFlag =>
      var p := ParseInt(value, MIN_DURATION, MAX_DURATION); ReadInt(p, SetDuration(p.value))
    case IterationsFlag =>
      var p := ParseInt(value, 1, MAX_ITERATIONS); ReadInt(p, SetIterations(p.value))
    case _ => Refused(InvalidArgument)
  }

  /** What the argument at position i makes the loop do. */
  datatype Action = Take(update: Update, used: nat) | StopWith(status: Status, help: bool)

  function ActionAt(args: seq<string>, i: nat): (a: Action)
    requires i < |args|
    ensures a.Take? ==> 0 < a.used <= |args| - i && InLimits(a.update)
  {
    var flag := FlagOf(args[i]);
    if flag == HelpFlag then StopWith(Ok, true)
    else if flag == NonInteractiveFlag then Take(SetNonInteractive, 1)
    else if flag == NoFlag || i + 1 >= |args| then StopWith(InvalidArgument, false)
    else
      match ReadValue(flag, args[i + 1])
      case Refused(status) => StopWith(status, false)
      case Read(update) =>
        ReadIsInLimits(flag, args[i + 1]);
        Take(update, 2)
  }

  lemma ReadIsInLimits(flag: Flag, value: string)
    ensures ReadValue(flag, value).Read? ==> InLimits(ReadValue(flag, value).update)
  {
  }

  datatype Outcome = Outcome(status: Status, help: bool, cfg: Cfg)

  /** Parsing from position i on; updates made before an error stay made. */
  function ParseFrom(c: Cfg, args: seq<string>, i: nat): Outcome
    requires i <= |args|
    decreases |args| - i
  {
    if i == |args| then Outcome(Ok, false, c)
    else
      match ActionAt(args, i)
      case StopWith(status, help) => Outcome(status, help, c)
      case Take(update, used) => ParseFrom(ApplyUpdate(c, update), args, i + used)
  }

  function ParseArgs(c: Cfg, args: seq<string>): Outcome {
    ParseFrom(c, args, 0)
  }

  // ---------------------------------------------------------------------------------------------
  // The environment

  datatype Env = Env(server: Option<string>, interval: Option<string>, duration: Option<string>,
                     nonInteractive: Option<string>, iterations: Option<string>)

  /** Continues with the next variable unless this one is refused. */
  function WithInt(c: Cfg, value: Option<string>, flag: Flag): (Status, Cfg) {
    if value.None? then (Ok, c)
    else
      match ReadValue(flag, value.value)
      case Refused(status) => (status, c)
      case Read(update) => (Ok, ApplyUpdate(c, update))
  }

  function WithBool(c: Cfg, value: Option<string>): (Status, Cfg) {
    if value.None? then (Ok, c)
    else
      var b := ParseBool(value.value);
      if b.None? then (ParseError, c) else (Ok, c.(nonInteractive := b.value))
  }

  function ApplyEnv(c: Cfg, env: Env): (Status, Cfg) {
    var c0 := if env.server.Some? && env.server.value != "" then ApplyUpdate(c, SetServer(env.server.value)) else c;
    var (s1, c1) := WithInt(c0, env.interval, IntervalFlag);
    if s1 != Ok then (s1, c1) else
    var (s2, c2) := WithInt(c1, env.duration, DurationFlag);
    if s2 != Ok then (s2, c2) else
    var (s3, c3) := WithBool(c2, env.nonInteractive);
    if s3 != Ok then (s3, c3) else
    WithInt(c3, env.iterations, IterationsFlag)
  }

  // ---------------------------------------------------------------------------------------------
  // Validation

  function Validate(c: Cfg): Status {
    if c.interval < MIN_INTERVAL || c.interval > MAX_INTERVAL then RangeError
    else if c.duration < MIN_DURATION || c.duration > MAX_DURATION then RangeError
    else if c.iterations < 0 then RangeError
    else if c.iterations > 0 && !c.nonInteractive then InvalidArgument
    else if c.iterations == 0 && c.duration < c.interval then RangeError
    else Ok
  }

  // ---------------------------------------------------------------------------------------------
  // The program's functions, which write through a pointer

  class Config {
    var serverName: string
    var intervalMs: int
    var durationMs: int
    var nonInteractive: bool
    var iterations: int

    function View(): Cfg
      reads this
    {
      Cfg(serverName, intervalMs, durationMs, nonInteractive, iterations)
    }

    /** monitor_config_init */
    constructor ()
      ensures View() == DEFAULTS == Cfg("local", 1000, 60000, false, 0)
    {
      serverName := "local";
      intervalMs := DEFAULT_INTERVAL;
      durationMs := DEFAULT_DURATION;
      nonInteractive := false;
      iterations := 0;
    }

    /** Stores the value of a flag or variable, unless it is refused. */
    method Store(flag: Flag, value: string) returns (status: Status)
      requires !flag.HelpFlag? && !flag.NonInteractiveFlag? && !flag.NoFlag?
      modifies this
      ensures match ReadValue(flag, value)
              case Refused(s) => status == s && s != Ok && View() == old(View())
              case Read(update) => status == Ok && View() == ApplyUpdate(old(View()), update)
    {
      if flag == ServerFlag {
        if value == "" {
          return InvalidArgument;
        }
        serverName := Truncate(value);
        return Ok;
      }
      var parsed := new Cell(0);
      if flag == IntervalFlag {
        status := ParseIntRange(value, MIN_INTERVAL, MAX_INTERVAL, parsed);
        if status == Ok {
          intervalMs := parsed.value;
        }
      } else if flag == DurationFlag {
        status := ParseIntRange(value, MIN_DURATION, MAX_DURATION, parsed);
        if status == Ok {
          durationMs := parsed.value;
        }
      } else {
        status := ParseIntRange(value, 1, MAX_ITERATIONS, parsed);
        if status == Ok {
          iterations := parsed.value;
          nonInteractive := true;
        }
      }
    }

    /** monitor_config_apply_env */
    method ApplyEnvironment(env: Env) returns (status: Status)
      modifies this
      ensures (status, View()) == ApplyEnv(old(View()), env)
    {
      if env.server.Some? && env.server.value != "" {
        serverName := Truncate(env.server.value);
      }
      if env.interval.Some? {
        status := Store(IntervalFlag, env.interval.value);
        if status != Ok {
          return;
        }
      }
      if env.duration.Some? {
        status := Store(DurationFlag, env.duration.value);
        if status != Ok {
          return;
        }
      }
      if env.nonInteractive.Some? {
        var flag := ParseBool(env.nonInteractive.value);
        if flag.None? {
          return ParseError;
        }
        nonInteractive := flag.value;
      }
      if env.iterations.Some? {
        status := Store(IterationsFlag, env.iterations.value);
        return;
      }
      return Ok;
    }

    /** monitor_config_apply_args; argv[0] is the program's name. */
    method ApplyArgs(argv: seq<string>, showHelp: Cell<bool>) returns (status: Status)
      modifies this, showHelp
      ensures Outcome(status, showHelp.value, View())
           == if argv == [] then Outcome(Ok, false, old(View())) else ParseFrom(old(View()), argv, 1)
    {
      showHelp.value := false;
      var i := 1;
      while i < |argv|
        invariant argv != [] ==> 1 <= i <= |argv| && ParseFrom(View(), argv, i) == ParseFrom(old(View()), argv, 1)
        invariant !showHelp.value && (argv == [] ==> View() == old(View()))
        decreases |argv| - i
      {
        var flag := FlagOf(argv[i]);
        if flag == HelpFlag {
          showHelp.value := true;
          return Ok;
        }
        if flag == NonInteractiveFlag {
          nonInteractive := true;
          i := i + 1;
          continue;
        }
        if flag == NoFlag || i + 1 >= |argv| {
          return InvalidArgument;
        }
        status := Store(flag, argv[i + 1]);
        if status != Ok {
          return;
        }
        i := i + 2;
      }
      return Ok;
    }
  }
}
