/**
  Laws of the settings at start-up, stated over what is written in the environment and on the command
  line: what each variable and each argument does, what is refused, and which setting prevails.
*/
module StartupLaws {
  import opened Common
  import opened Strtol
  import opened MonitorConfig
  import opened ConfigLaws
  import opened ServerMonitor

  // ---------------------------------------------------------------------------------------------
  // Switch words

  /** The capital letters, and they only, become the small ones. */
  function SmallLetter(c: char): char {
    if 'A' <= c <= 'Z' then (c as int + 32) as char else c
  }

  function Lower(s: string): string {
    seq(|s|, i requires 0 <= i < |s| => SmallLetter(s[i]))
  }

  predicate IsYes(s: string) {
    s == "1" || Lower(s) == "true" || Lower(s) == "yes" || Lower(s) == "on"
  }

  predicate IsNo(s: string) {
    s == "0" || Lower(s) == "false" || Lower(s) == "no" || Lower(s) == "off"
  }

  lemma EqualsLower(s: string, word: string)
    ensures EqualsIgnoringCase(s, word) <==> Lower(s) == word
  {
    if EqualsIgnoringCase(s, word) {
      assert forall i :: 0 <= i < |s| ==> Lower(s)[i] == word[i];
    }
    if Lower(s) == word {
      assert forall i :: 0 <= i < |s| ==> ToLower(s[i]) == Lower(s)[i];
    }
  }

  /** A switch is on exactly for 1, true, yes and on, off exactly for 0, false, no and off, in any case
      of the letters, and refused otherwise. */
  lemma ParseBoolMeans(s: string)
    ensures ParseBool(s) == Some(true) <==> IsYes(s)
    ensures ParseBool(s) == Some(false) <==> IsNo(s)
    ensures ParseBool(s) == None <==> !IsYes(s) && !IsNo(s)
  {
    EqualsLower(s, "true");
    EqualsLower(s, "yes");
    EqualsLower(s, "on");
    EqualsLower(s, "false");
    EqualsLower(s, "no");
    EqualsLower(s, "off");
    assert "true"[0] == 't' && "yes"[0] == 'y' && "no"[0] == 'n' && "false"[0] == 'f' && |"on"| != |"off"|;
  }

  // ---------------------------------------------------------------------------------------------
  // The environment

  /** A configuration as environment variables. */
  function EnvOf(c: Cfg, switch: string): Env {
    Env(Some(c.server), Some(Decimal(c.interval)), Some(Decimal(c.duration)), Some(switch),
        if c.iterations > 0 then Some(Decimal(c.iterations)) else None)
  }

  /** Every valid configuration, written into the environment, is read from it. */
  lemma EnvRoundTrip(c: Cfg, switch: string)
    requires Validate(c) == Ok && c.iterations <= 864000 && 1 <= |c.server| <= 63
    requires if c.nonInteractive then IsYes(switch) else IsNo(switch)
    ensures ApplyEnv(DEFAULTS, EnvOf(c, switch)) == (Ok, c)
  {
    ParseBoolMeans(switch);
    ParseDecimal(c.interval, 100, 3600000);
    ParseDecimal(c.duration, 1000, 86400000);
    if c.iterations > 0 {
      ParseDecimal(c.iterations, 1, 864000);
    }
  }

  /** Whether variable n, in the order in which they are read, is unset or acceptable. */
  ghost predicate VarOk(env: Env, n: nat) {
    if n == 1 then env.interval.Some? ==> IsNumber(env.interval.value, 100, 3600000)
    else if n == 2 then env.duration.Some? ==> IsNumber(env.duration.value, 1000, 86400000)
    else if n == 3 then
      env.nonInteractive.Some? ==> IsYes(env.nonInteractive.value) || IsNo(env.nonInteractive.value)
    else if n == 4 then env.iterations.Some? ==> IsNumber(env.iterations.value, 1, 864000)
    else true
  }

  /** The limits of a numeric setting. */
  predicate HasLimits(flag: Flag, min: int, max: int) {
    || (flag == IntervalFlag && min == 100 && max == 3600000)
    || (flag == DurationFlag && min == 1000 && max == 86400000)
    || (flag == IterationsFlag && min == 1 && max == 864000)
  }

  /** How a text that is not an admissible number is refused. */
  ghost function Refusal(s: string): Status {
    if exists v :: DenotesLong(s, v) then RangeError else ParseError
  }

  lemma IntReading(c: Cfg, value: Option<string>, flag: Flag, min: int, max: int)
    requires HasLimits(flag, min, max)
    ensures var (status, d) := WithInt(c, value, flag);
            && (status == Ok <==> value.None? || IsNumber(value.value, min, max))
            && (status != Ok || value.None? ==> d == c)
            && (status != Ok ==> status == Refusal(value.value))
            && (status == Ok && value.Some? ==>
                  var v := ParseInt(value.value, min, max).value;
                  Denotes(value.value, v) && min <= v <= max && d == SetTo(c, flag, v))
  {
    if value.Some? {
      NumberIsParsed(value.value, min, max);
      ParseIntCharacterised(value.value, min, max, 0);
      var v := ParseInt(value.value, min, max).value;
      assert ParseInt(value.value, min, max).status == Ok ==> WithInt(c, value, flag).1 == SetTo(c, flag, v);
    }
  }

  /** The configuration with the setting of that flag, an iteration count implying the mode. */
  function SetTo(c: Cfg, flag: Flag, v: int): Cfg {
    match flag
    case IntervalFlag => c.(interval := v)
    case DurationFlag => c.(duration := v)
    case _ => c.(iterations := v, nonInteractive := true)
  }

  /** The variables before number n. */
  function Before(env: Env, n: nat): Env {
    Env(env.server, if n > 1 then env.interval else None, if n > 2 then env.duration else None,
        if n > 3 then env.nonInteractive else None, if n > 4 then env.iterations else None)
  }

  lemma SwitchReading(c: Cfg, value: Option<string>)
    ensures var (status, d) := WithBool(c, value);
            && (status == Ok <==> value.None? || IsYes(value.value) || IsNo(value.value))
            && (status == Ok && value.Some? ==> d == c.(nonInteractive := IsYes(value.value)))
            && (status != Ok || value.None? ==> d == c)
            && (status != Ok ==> status == ParseError)
  {
    if value.Some? {
      ParseBoolMeans(value.value);
    }
  }

  /** After the server, the interval, the duration, the switch and the iterations. */
  function Stage(c: Cfg, env: Env, n: nat): Cfg
    requires n <= 4
  {
    if n == 0 then if env.server.Some? && env.server.value != "" then c.(server := Truncate(env.server.value)) else c
    else if n == 1 then WithInt(Stage(c, env, 0), env.interval, IntervalFlag).1
    else if n == 2 then WithInt(Stage(c, env, 1), env.duration, DurationFlag).1
    else if n == 3 then WithBool(Stage(c, env, 2), env.nonInteractive).1
    else WithInt(Stage(c, env, 3), env.iterations, IterationsFlag).1
  }

  lemma StageReading(c: Cfg, env: Env)
    ensures WithInt(Stage(c, env, 0), env.interval, IntervalFlag).0
         == if VarOk(env, 1) then Ok else FirstRefusal(env, 1)
    ensures WithInt(Stage(c, env, 1), env.duration, DurationFlag).0
         == if VarOk(env, 2) then Ok else FirstRefusal(env, 2)
    ensures WithBool(Stage(c, env, 2), env.nonInteractive).0 == if VarOk(env, 3) then Ok else FirstRefusal(env, 3)
    ensures WithInt(Stage(c, env, 3), env.iterations, IterationsFlag).0
         == if VarOk(env, 4) then Ok else FirstRefusal(env, 4)
    ensures forall n :: 1 <= n <= 4 && !VarOk(env, n) ==> Stage(c, env, n) == Stage(c, env, n - 1)
  {
    IntReading(Stage(c, env, 0), env.interval, IntervalFlag, 100, 3600000);
    IntReading(Stage(c, env, 1), env.duration, DurationFlag, 1000, 86400000);
    SwitchReading(Stage(c, env, 2), env.nonInteractive);
    IntReading(Stage(c, env, 3), env.iterations, IterationsFlag, 1, 864000);
  }

  /** How the first variable that is refused is refused. */
  ghost function FirstRefusal(env: Env, n: nat): Status {
    if n == 1 && env.interval.Some? then Refusal(env.interval.value)
    else if n == 2 && env.duration.Some? then Refusal(env.duration.value)
    else if n == 4 && env.iterations.Some? then Refusal(env.iterations.value)
    else ParseError
  }

  lemma EnvIsStaged(c: Cfg, env: Env, n: nat)
    requires 1 <= n <= 5 && (forall j :: 1 <= j < n ==> VarOk(env, j)) && (n == 5 || !VarOk(env, n))
    ensures ApplyEnv(c, env) == (if n == 5 then Ok else FirstRefusal(env, n), Stage(c, env, n - 1))
  {
    StageReading(c, env);
    assert VarOk(env, 1) || n == 1;
    assert n > 1 ==> VarOk(env, 1);
    assert n > 2 ==> VarOk(env, 2);
    assert n > 3 ==> VarOk(env, 3);
    assert n > 4 ==> VarOk(env, 4);
  }

  /** The environment is accepted exactly if every variable that is set is acceptable. */
  lemma EnvStatus(c: Cfg, env: Env)
    ensures ApplyEnv(c, env).0 == Ok <==> VarOk(env, 1) && VarOk(env, 2) && VarOk(env, 3) && VarOk(env, 4)
  {
    StageReading(c, env);
  }

  lemma EarlierStages(c: Cfg, env: Env, n: nat)
    requires 1 <= n <= 4
    ensures Stage(c, Before(env, n), 4) == Stage(c, env, n - 1)
  {
    var earlier := Before(env, n);
    assert Stage(c, earlier, 1) == Stage(c, env, if n > 1 then 1 else 0);
    assert Stage(c, earlier, 2) == Stage(c, env, if n > 2 then 2 else n - 1);
    assert Stage(c, earlier, 3) == Stage(c, env, n - 1);
  }

  /** The first variable that is refused gives the status and leaves exactly the settings of those before it. */
  lemma RefusedKeepsEarlier(c: Cfg, env: Env, n: nat)
    requires 1 <= n <= 4 && (forall j :: 1 <= j < n ==> VarOk(env, j)) && !VarOk(env, n)
    ensures ApplyEnv(c, env).0 == FirstRefusal(env, n) != Ok
    ensures ApplyEnv(c, Before(env, n)) == (Ok, ApplyEnv(c, env).1)
  {
    var earlier := Before(env, n);
    EnvIsStaged(c, env, n);
    assert forall j :: 1 <= j < n ==> VarOk(earlier, j) == VarOk(env, j);
    EnvIsStaged(c, earlier, 5);
    EarlierStages(c, env, n);
  }

  /** An unset variable leaves the number alone, one that is set gives it the value that it denotes. */
  ghost predicate IsRead(value: Option<string>, min: int, max: int, before: int, after: int) {
    if value.None? then after == before else Denotes(value.value, after) && min <= after <= max
  }

  lemma IntervalReading(c: Cfg, value: Option<string>)
    requires WithInt(c, value, IntervalFlag).0 == Ok
    ensures var d := WithInt(c, value, IntervalFlag).1;
            IsRead(value, 100, 3600000, c.interval, d.interval) && d == c.(interval := d.interval)
  {
    IntReading(c, value, IntervalFlag, 100, 3600000);
  }

  lemma DurationReading(c: Cfg, value: Option<string>)
    requires WithInt(c, value, DurationFlag).0 == Ok
    ensures var d := WithInt(c, value, DurationFlag).1;
            IsRead(value, 1000, 86400000, c.duration, d.duration) && d == c.(duration := d.duration)
  {
    IntReading(c, value, DurationFlag, 1000, 86400000);
  }

  lemma IterationsReading(c: Cfg, value: Option<string>)
    requires WithInt(c, value, IterationsFlag).0 == Ok
    ensures var d := WithInt(c, value, IterationsFlag).1;
            && IsRead(value, 1, 864000, c.iterations, d.iterations)
            && d == c.(iterations := d.iterations, nonInteractive := value.Some? || c.nonInteractive)
  {
    IntReading(c, value, IterationsFlag, 1, 864000);
  }

  /** The server's name, cut to 63 characters; an empty one is ignored. */
  function NameRead(value: Option<string>, before: string): string {
    if value.None? || value.value == "" then before
    else if |value.value| <= 63 then value.value else value.value[..63]
  }

  /** In an accepted environment an unset variable leaves its field alone, and one that is set gives
      it the value that it denotes. */
  lemma EnvFields(c: Cfg, env: Env)
    requires ApplyEnv(c, env).0 == Ok
    ensures var d := ApplyEnv(c, env).1;
      && d.server == NameRead(env.server, c.server)
      && IsRead(env.interval, 100, 3600000, c.interval, d.interval)
      && IsRead(env.duration, 1000, 86400000, c.duration, d.duration)
      && IsRead(env.iterations, 1, 864000, c.iterations, d.iterations)
      && d.nonInteractive == (if env.iterations.Some? then true
                              else if env.nonInteractive.Some? then IsYes(env.nonInteractive.value)
                              else c.nonInteractive)
  {
    var c0 := Stage(c, env, 0);
    var c1 := WithInt(c0, env.interval, IntervalFlag).1;
    var c2 := WithInt(c1, env.duration, DurationFlag).1;
    var c3 := WithBool(c2, env.nonInteractive).1;
    IntervalReading(c0, env.interval);
    DurationReading(c1, env.duration);
    SwitchReading(c2, env.nonInteractive);
    IterationsReading(c3, env.iterations);
  }

  // ---------------------------------------------------------------------------------------------
  // The command line

  lemma OptionThen(c: Cfg, x: seq<string>, u: Update, b: seq<string>)
    requires IsOption(x, u)
    ensures ParseArgs(c, x + b) == ParseArgs(ApplyUpdate(c, u), b)
  {
    ParseOption(c, x, u);
    ParsingComposes(c, x, b);
  }

  /** What each option does, whatever follows it. */
  lemma ServerMeans(c: Cfg, name: string, b: seq<string>)
    requires name != ""
    ensures ParseArgs(c, ["--server", name] + b)
         == ParseArgs(c.(server := if |name| <= 63 then name else name[..63]), b)
  {
    ServerOption(name);
    OptionThen(c, ["--server", name], SetServer(name), b);
  }

  lemma IntervalMeans(c: Cfg, ms: int, b: seq<string>)
    requires 100 <= ms <= 3600000
    ensures ParseArgs(c, ["--interval-ms", Decimal(ms)] + b) == ParseArgs(c.(interval := ms), b)
  {
    IntervalOption(ms);
    OptionThen(c, IntervalArgs(ms), SetInterval(ms), b);
  }

  lemma DurationMeans(c: Cfg, ms: int, b: seq<string>)
    requires 1000 <= ms <= 86400000
    ensures ParseArgs(c, ["--duration-ms", Decimal(ms)] + b) == ParseArgs(c.(duration := ms), b)
  {
    DurationOption(ms);
    OptionThen(c, DurationArgs(ms), SetDuration(ms), b);
  }

  lemma IterationsMean(c: Cfg, count: int, b: seq<string>)
    requires 1 <= count <= 864000
    ensures ParseArgs(c, ["--iterations", Decimal(count)] + b)
         == ParseArgs(c.(iterations := count, nonInteractive := true), b)
  {
    IterationsOption(count);
    OptionThen(c, ["--iterations", Decimal(count)], SetIterations(count), b);
  }

  lemma NonInteractiveMeans(c: Cfg, b: seq<string>)
    ensures ParseArgs(c, ["--non-interactive"] + b) == ParseArgs(c.(nonInteractive := true), b)
  {
    NonInteractiveOption();
    OptionThen(c, ["--non-interactive"], SetNonInteractive, b);
  }

  const VALUE_FLAGS := {"--server", "--interval-ms", "--duration-ms", "--iterations"}

  /** Help stops the parsing, and so does everything that is refused; what was set before stays. */
  lemma StopsMean(c: Cfg, b: seq<string>)
    ensures ParseArgs(c, ["--help"] + b) == ParseArgs(c, ["-h"] + b) == Outcome(Ok, true, c)
    ensures forall x :: x !in VALUE_FLAGS && x !in {"--help", "-h", "--non-interactive"} ==>
              ParseArgs(c, [x] + b) == Outcome(InvalidArgument, false, c)
    ensures forall x :: x in VALUE_FLAGS ==> ParseArgs(c, [x]) == Outcome(InvalidArgument, false, c)
    ensures ParseArgs(c, ["--server", ""] + b) == Outcome(InvalidArgument, false, c)
  {
  }

  /** The options with a numeric value, and their limits. */
  predicate TakesNumber(flag: string, min: int, max: int) {
    || (flag == "--interval-ms" && min == 100 && max == 3600000)
    || (flag == "--duration-ms" && min == 1000 && max == 86400000)
    || (flag == "--iterations" && min == 1 && max == 864000)
  }

  lemma RefusedAction(flag: string, value: string, min: int, max: int, args: seq<string>)
    requires TakesNumber(flag, min, max)
    requires !IsNumber(value, min, max) && |args| >= 2 && args[0] == flag && args[1] == value
    ensures ActionAt(args, 0) == StopWith(Refusal(value), false)
  {
    ParseIntCharacterised(value, min, max, 0);
    NumberIsParsed(value, min, max);
  }

  /** A value that is not a number within the limits of its flag stops the parsing. */
  lemma RefusedNumber(c: Cfg, flag: string, value: string, min: int, max: int, b: seq<string>)
    requires TakesNumber(flag, min, max)
    requires !IsNumber(value, min, max)
    ensures ParseArgs(c, [flag, value] + b) == Outcome(Refusal(value), false, c)
  {
    RefusedAction(flag, value, min, max, [flag, value] + b);
  }

  // ---------------------------------------------------------------------------------------------
  // Start-up

  lemma ArgsBehindProgram(c: Cfg, program: string, args: seq<string>)
    ensures ParseFrom(c, [program] + args, 1) == ParseArgs(c, args)
  {
    ParseIsRun(c, [program] + args, 1);
    ParseIsRun(c, args, 0);
    ActionsEnd([program], args);
    RunOfSuffix(c, Actions([program] + args), 1, Actions(args), 0);
  }

  /** The arguments are applied to what the environment has made of the defaults. */
  lemma StartupIsLayered(env: Env, program: string, args: seq<string>)
    ensures Startup(env, [program] + args) == ParseArgs(ApplyEnv(DEFAULTS, env).1, args)
  {
    ArgsBehindProgram(ApplyEnv(DEFAULTS, env).1, program, args);
  }

  const UNSET := Env(None, None, None, None, None)

  /** Every valid configuration can be given by the environment alone and by the arguments alone, and
      an argument prevails over the environment. */
  lemma StartupReaches(c: Cfg, switch: string, program: string, v: int)
    requires Validate(c) == Ok && c.iterations <= 864000 && 1 <= |c.server| <= 63
    requires if c.nonInteractive then IsYes(switch) else IsNo(switch)
    requires 100 <= v <= 3600000
    ensures Startup(EnvOf(c, switch), [program]) == Outcome(Ok, false, c)
    ensures Startup(UNSET, [program] + Print(c)) == Outcome(Ok, false, c)
    ensures Startup(EnvOf(c, switch), [program, "--interval-ms", Decimal(v)])
         == Outcome(Ok, false, c.(interval := v))
  {
    EnvRoundTrip(c, switch);
    StartupIsLayered(EnvOf(c, switch), program, []);
    assert [program] + [] == [program];
    StartupIsLayered(UNSET, program, Print(c));
    RoundTrip(c);
    StartupIsLayered(EnvOf(c, switch), program, ["--interval-ms", Decimal(v)]);
    assert [program] + ["--interval-ms", Decimal(v)] == [program, "--interval-ms", Decimal(v)];
    IntervalOption(v);
    ParseOption(c, IntervalArgs(v), SetInterval(v));
  }
}
