# Verified models of the server health monitor and its companion programs

This project models the hard core of the repository in Dafny 4.11 and proves what that code is for.
`dafny verify dfyconfig.toml` checks everything.

| file | what it models |
|---|---|
| `Common.dfy` | options, out-parameters, status codes, finite sums |
| `LockedCounter.dfy` | `pthread_neural_network.c`: any number of threads updating one counter under a mutex and reading it again outside the lock, over repeated clicks of Start |
| `ProcessTable.dfy` | `system_lib.hpp` as a concurrent machine: every call and every detached completion is cut at each access to shared data |
| `ExitCodes.dfy` | what exit codes are left when calls overlap |
| `Queries.dfy` | what a query may answer when it overlaps with other calls |
| `AtomicCalls.dfy` | the same machine when nothing interrupts a call or a completion |
| `ProcessManager.dfy` | the API as a class whose methods run one call at a time; each of them is one atomic move of the machine, with the same result |
| `Clocks.dfy` | reading the clock and sleeping in `server_monitor.c`: time passes by arbitrary amounts, readings may fail, and any finite number of sleeps is interrupted; every reading, sample and sleep is logged |
| `Sampling.dfy` | the two sampling loops of `server_monitor.c` on that clock |
| `ServerMonitor.dfy` | start-up, the menu and the monitoring calls of `main` |
| `MenuLaws.dfy` | what a session makes of the lines typed, and that every session can be typed |
| `UsageBar.dfy` | the usage bar: rounding over the reals, written into a bounded buffer |
| `Strtol.dfy` | `strtol` in base 10 (section 7.22.1.4 of ISO C11), `parse_int_range` on top of it, and decimal printing |
| `MonitorConfig.dfy`, `ConfigLaws.dfy` | defaults, environment, command line and validation; composition, last-wins, commutation and round-trip laws |
| `StartupLaws.dfy` | what each variable and each argument does, what is refused, and that arguments prevail over the environment |
| `CpuUsage.dfy` | CPU deltas modulo 2^64 over a run of samples |
| `MemInfo.dfy` | the early-exit scan of `/proc/meminfo`, and exactly when it agrees with a full scan |
| `Trionic.dfy` | the greedy recogniser of `trionic.ts` |
| `TrackedAllocator.dfy` | the allocator of `mem_test.c` over byte memory |
| `Dashboard.dfy` | the bounded record store, paging and timer control of `docs/index.html` |

Code that changes state is a class or a loop proved against a specification function. The two
concurrent programs are also step machines: a list of steps is one interleaving, and what is said
about `After(...)`, or about states with the inductive invariant, holds in
every run, because `LockedCounter.Reachable` and `ProcessTable.RunKeepsInv` say that every run stays
among those states. Clock, interruptions, scheduling and the results of `/proc` reads are left
open by nondeterministic choices; ghost logs say which clock readings, samples and sleeps there were. File
contents, environment, arguments and typed lines are inputs.

## Results worth knowing

- **Exit codes.** With call bodies atomic, a process table at rest has no exit code but 0
  (`AtomicRunAtRest`). Cut at field accesses this is false: `LateTerminate` constructs a run in
  which `terminateProcess` sees the process running, the last completion fires, and only then the
  call stores its -1. `AtRest` gives the exact condition, in terms of the steps of the run: an exit
  code at rest is -1 if and only if, when the last completion of that process stored its 0, some
  `terminateProcess` was between its test of `isRunning` and its store. So a caller is safe if no
  `terminateProcess` of the process is under way at that moment (`TimelyTerminate`).
- **Torn answers.** A query reads the flag and, in a later step, the exit code. Its answer is the
  entry at its second read with the flag that the entry had at its first (`AnswerIsMix`). It is the
  entry at the first read if and only if the exit code is the same at both, and at the second if
  and only if the flag is (`AnswerIsSnapshot`). That it is the entry at some moment between them is
  false: `TornRead` constructs a run in which no entry is ever running with exit code -1 and a query
  answers exactly that. `TornExactly` says when an answer is torn, in terms of the stores between
  the reads; there must be one of the flag and after it one of the exit code (`TornMeansStores`). So
  a caller is safe if no completion or `terminateProcess` of the process stores an exit code
  meanwhile (`UndisturbedQuery`).
- **An unreadable clock.** The program checks its first clock reading and the one after each sample,
  but not the one at the head of the duration loop; a failed one there makes the elapsed time
  negative and admits a sample. A sample starts although the time is up if and only if a head
  reading fails when the time is up (`LateSampleMeansFailure`), which happens at most once and costs
  at most one sample more than ceil(duration/interval) (`SampleBound`); `ExtraSample` is a list of
  readings on which it does. If no head reading fails so late, every bound holds.
- **Pace.** Every sleep asks for exactly the interval, or for what is left of the duration if that is
  less (`RunDuration`), and lasts longer only by the overruns that the system adds (`SleepLasts`). So
  consecutive samples are at most an interval apart, besides the time spent in sampling, in clock
  readings and in overruns (`GapIsBounded`); where these are 0 and nothing fails, there are exactly
  ceil(duration/interval) samples, sample k at start + k intervals, and the run ends when the
  duration is over (`IdealRun`).
- **Sessions.** A session makes one call for each choice 1 before the first 5 or the end of the
  input, with the interval and the duration that were taken over last (`MenuMeans`,
  `IntervalIsLast`, `DurationIsLast`); sessions compose, and every session can be typed
  (`SessionsCompose`, `TypedIsRead`).
- **Start-up.** Every valid configuration can be given by the environment alone and by the
  arguments alone (`StartupReaches`); a refused variable leaves exactly the settings of those before
  it (`RefusedKeepsEarlier`).
- **Early exit.** After its early exit the meminfo scan has the answer of a full scan if and only if
  the last MemTotal and MemAvailable lines of the file agree with what it has seen
  (`EarlyExitIsExact`); so it has if no such line follows, and in particular if no label is
  repeated. `RepeatedLabelMatters` is a file on which the two differ.
- **Wrapping sizes.** `HeaderFits` says exactly when the block that `test_malloc` requests has room
  for its header; for the largest size it has not (`LargestSizeWraps`).

## Model

| member | source | states |
|---|---|---|
| LockedCounter.StepKeepsInv | pthread_neural_network.c:185-214 | every lock, load, add, store, report, unlock, read, create, join and click step keeps the invariant: one lock holder, no stale private copy, counter = start value plus what has been stored, messages and results that are running totals |
| LockedCounter.Reachable | pthread_neural_network.c:126-214 | every interleaving of any number of threads and clicks, from the initial state, leads to a state with that invariant |
| LockedCounter.MutualExclusion | pthread_neural_network.c:197-206 | in every run two threads between lock and unlock are the same thread |
| LockedCounter.CounterIsConserved | pthread_neural_network.c:185-214 | at every point of every run the counter is the value at the click plus the inputs of exactly the threads that have stored; between clicks it is 2 plus the inputs of all clicks so far |
| LockedCounter.AfterAllJoins | pthread_neural_network.c:166-182 | after all joins the counter is the start value plus the sum of all inputs |
| LockedCounter.UpdatesStrictlyIncrease | pthread_neural_network.c:203-204 | in every run with positive inputs the values reported by successive updates strictly increase, come from different threads and never exceed the counter |
| LockedCounter.ResultsAreRunningTotals | pthread_neural_network.c:206-213 | in every run, although it is read after the unlock, a result is the start value plus the inputs of the first k threads to store, the reader among them; with positive inputs it lies between start plus own input and the counter |
| LockedCounter.LastAdderReturnsTotal | pthread_neural_network.c:197-213 | with at least one thread, the last thread to store returns the final total |
| LockedCounter.FinishedClick | pthread_neural_network.c:166-214 | all of the above about a finished click at once, in terms of inputs, start value, counter and results only |
| LockedCounter.EveryClickHasItsOutcome | pthread_neural_network.c:126-214 | in every run, whenever no click is under way, the last one has ended that way |
| LockedCounter.StepDecreasesRemaining | pthread_neural_network.c:146-214 | whichever thread the scheduler picks, a nonnegative measure of the click's remaining steps decreases |
| LockedCounter.NoDeadlock | pthread_neural_network.c:146-214 | until the click is over some thread can move |
| LockedCounter.App.constructor | pthread_neural_network.c:28-29 | the counter is 2 and the mutex free, which is the invariant between clicks |
| LockedCounter.App.ValidateInputs | pthread_neural_network.c:222-240 | accepts exactly 1 to 10 threads with all inputs positive |
| LockedCounter.App.ThreadAction | pthread_neural_network.c:185-214 | one action of foo on the real counter, mutex and thread array is the machine's thread step |
| LockedCounter.App.MainAction | pthread_neural_network.c:146-180 | one action of the create or join loop is the machine's main step; the joined results come in thread order |
| LockedCounter.App.Turn | pthread_neural_network.c:146-214 | one turn of an arbitrary scheduler keeps the program in step with a good state and decreases the measure |
| LockedCounter.App.Schedule | pthread_neural_network.c:146-180 | for every schedule the create and join loops end, with the program still in step with the machine |
| LockedCounter.App.RunThreads | pthread_neural_network.c:146-180 | a click ends in a finished good state that started from the old counter, and the invariant between clicks holds again |
| LockedCounter.App.OnStartButtonClicked | pthread_neural_network.c:126-183 | an invalid click changes nothing; a valid one adds exactly its inputs to the counter and returns results that are running totals, the last adder's being the final total; the invariant carries over to the next click |
| ProcessTable.StepKeepsInv | system_lib.hpp:205-268 | every call and every single shared access of any call or completion keeps the invariant on ids, on running processes and on exit codes |
| ProcessTable.RunKeepsInv | system_lib.hpp:205-268 | so does every interleaving |
| ProcessTable.RunningHasCompletion | system_lib.hpp:226-251 | in every run a process marked running has an unfired completion, or an execute call that has marked it and is about to detach one |
| ProcessTable.IssuedIdsAreFresh | system_lib.hpp:71-79 | in every run an id in the hands of a create call lies in (1000, nextProcessId], is not in the table, so that insertion overwrites nothing, and is not issued to another call |
| ProcessTable.EntriesAreSound | system_lib.hpp:205-224 | in every run every entry has a key in (1000, nextProcessId] equal to its processId, an admissible command, and an exit code of 0 or -1 |
| ProcessTable.EntriesStay | system_lib.hpp:76-90 | over every run no entry disappears or changes its command, and ids are never reissued downwards |
| ProcessTable.AdvanceDecreasesWork | system_lib.hpp:226-268 | once calls stop, every step of any task decreases a nonnegative measure, so that rest is reached |
| ExitCodes.AtRest | system_lib.hpp:226-268 | in every run in which all calls have returned and all completions have fired, nothing is running, and an exit code is -1 if and only if a terminate call was past its test when the last completion of that process stored 0 |
| ExitCodes.RunExplains | system_lib.hpp:241-268 | at every point of every run, such an overlap means an exit code of -1 now or a terminate call about to store it, and without one a -1 will be overwritten |
| ExitCodes.TimelyTerminate | system_lib.hpp:241-268 | if no terminate call of the process is under way when its last completion stores 0, the process ends with exit code 0 |
| ExitCodes.LateTerminate | system_lib.hpp:253-268 | a run from the initial state that comes to rest with an exit code of -1 |
| Queries.AnswerHasReads | system_lib.hpp:270-278 | in every run every answer comes from two reads of its own query, of the flag and later of the exit code |
| Queries.AnswerIsMix | system_lib.hpp:276 | whatever steps come between these reads, the answer is the entry at the second one with the flag that it had at the first |
| Queries.AnswerIsSnapshot | system_lib.hpp:276 | the answer is the entry at the first read if and only if the exit code is the same at both, and at the second if and only if the flag is |
| Queries.TornMeansStores | system_lib.hpp:236-276 | if the answer is the entry at no moment from the first read to the second, the flag has been stored between them and after that the exit code |
| Queries.TornExactly | system_lib.hpp:236-276 | that is so if and only if the exit code answered is not there at the first read, no store of the flag answered meets that exit code, and no store of that exit code meets the flag answered |
| Queries.UndisturbedQuery | system_lib.hpp:241-276 | if no completion or terminate call of the process stores an exit code between the reads, the answer is the entry at the first |
| Queries.TornRead | system_lib.hpp:270-278 | a run in which no entry is ever running with exit code -1, and a query answers that |
| Queries.TornAnswerExists | system_lib.hpp:270-278 | so some answer is torn in the sense of TornExactly |
| AtomicCalls.AtomicStepKeepsInv | system_lib.hpp:226-268 | with call bodies atomic, every call and firing keeps: all tasks over or asleep, and every -1 will be overwritten |
| AtomicCalls.AtomicExitCodes | system_lib.hpp:226-268 | in every run with call bodies atomic, running and exit code -1 each imply an unfired completion of that process |
| AtomicCalls.AtomicRunAtRest | system_lib.hpp:226-268 | after every atomic run in which all completions have fired, nothing is running and every exit code is 0 |
| AtomicCalls.AtomicIsRunOut | system_lib.hpp:205-278 | an atomic move is the uninterrupted run of the machine's own steps |
| AtomicCalls.CreateEffect | system_lib.hpp:205-224 | the steps of an uninterrupted createProcess add up to: refusal, or one new id and, exactly if the command is valid, holds a word and is executable, one idle entry under it |
| AtomicCalls.CreateOutcome | system_lib.hpp:174-224 | success exactly for a valid command with a word that can be executed, execution failed exactly for one that cannot, invalid otherwise; a valid command uses up an id; only success files an entry, with exactly that command, idle, exit code 0 |
| AtomicCalls.ExecuteEffect | system_lib.hpp:226-251 | the steps of an uninterrupted executeProcess add up to: not found, nothing if running, otherwise running with one more completion |
| AtomicCalls.TerminateEffect | system_lib.hpp:253-268 | the steps of an uninterrupted terminateProcess add up to: not found, nothing if idle, otherwise idle with exit code -1 |
| AtomicCalls.InfoEffect | system_lib.hpp:270-278 | the steps of an uninterrupted getProcessInfo add up to the entry as it is, or not found |
| AtomicCalls.FireEffect | system_lib.hpp:241-248 | the steps of an uninterrupted completion leave the process idle with exit code 0 |
| ProcessManagement.FindPattern | system_lib.hpp:113-115 | the search finds a pattern exactly if it occurs somewhere in the string |
| ProcessManagement.CheckCommand | system_lib.hpp:108-119 | accepts exactly the nonempty commands in which none of the seven dangerous patterns occurs |
| ProcessTable.ValidCommandCharacters | system_lib.hpp:108-119 | a command is valid exactly if it is not empty and has none of the six forbidden characters and no dollar sign in front of a parenthesis |
| ProcessManagement.CreateLeadsTo | system_lib.hpp:205-224 | the machine's atomic createProcess leads from what the class keeps to what CreateProcess makes of it, with the same result and under an unused id |
| ProcessManagement.ExecuteLeadsTo | system_lib.hpp:226-251 | likewise for ExecuteProcess |
| ProcessManagement.TerminateLeadsTo | system_lib.hpp:253-268 | likewise for TerminateProcess |
| ProcessManagement.FireLeadsTo | system_lib.hpp:241-248 | likewise for a completion: one task asleep for the process wakes up |
| ProcessManagement.ProcessManager.constructor | system_lib.hpp:103-104 | the empty table with id base 1000 is where the machine starts |
| ProcessManagement.ProcessManager.CreateProcess | system_lib.hpp:205-224 | one atomic move of the machine with its result; success, execution failed and invalid exactly as the command is valid, holds a word and is accessible; a valid command consumes a fresh id even when creation fails; on success the table gains the entry with that command, idle, exit code 0, otherwise it is the old one |
| ProcessManagement.ProcessManager.ExecuteProcess | system_lib.hpp:226-251 | one atomic move of the machine with its result; success exactly for a known id, whose entry becomes running and is else unchanged; exactly one more completion if it was idle; no other entry changes |
| ProcessManagement.ProcessManager.TerminateProcess | system_lib.hpp:253-268 | one atomic move of the machine with its result; success exactly for a known id; a running process becomes idle with exit code -1, everything else is unchanged |
| ProcessManagement.ProcessManager.FireCompletion | system_lib.hpp:241-248 | one firing of the machine; one completion is used up and its process is idle with exit code 0, even where terminate had stored -1 |
| ProcessManagement.ProcessManager.FireAll | system_lib.hpp:241-248 | firing all completions in any order ends with nothing running and every exit code 0, because the machine is then at rest |
| ProcessManagement.ProcessManager.GetProcessInfo | system_lib.hpp:270-278 | the machine's answer: the entry filed under the id, holding an admissible command, or not found |
| ProcessManagement.ProcessManager.ListProcesses | system_lib.hpp:280-283 | lists every entry exactly once and nothing else |
| ProcessManagement.GetAllProcesses | system_lib.hpp:92-99 | in whatever order the map is walked, the list holds each entry once, with distinct ids |
| Clocks.Clock.NowMs | server_monitor.c:92-98 | -1 or the floor in milliseconds of the nanosecond clock, though computed from seconds and nanoseconds separately |
| Clocks.Clock.Nanosleep | server_monitor.c:109 | sleeps at least the request, or is interrupted and reports a remainder that covers what is missing |
| Clocks.Clock.SleepMs | server_monitor.c:100-112 | the first nap asks for exactly the given time, each further one for the remainder reported; the sleep ends with the first nap that is not interrupted, and lasts at least the given time; nothing happens for 0 or less |
| Clocks.SleepLasts | server_monitor.c:100-112 | however often it is interrupted, a sleep lasts exactly the requested time and the overruns of its naps |
| Sampling.ElapsedBoundsTrueTime | server_monitor.c:334-338 | a difference of floored readings below the duration means a true time below the duration |
| Sampling.SleptEnough | server_monitor.c:368-376 | after the sleep, even a shortened one, either a full interval has passed since the last sample or the duration is over |
| Sampling.AdmittedInTime | server_monitor.c:334-338 | a sample is admitted while time is left, unless it is the last one and its head reading failed late |
| Sampling.SamplesAreWellTimed | server_monitor.c:334-377 | on every list of readings of a run, each such sample starts within the duration and an interval after the one before |
| Sampling.LateSampleMeansFailure | server_monitor.c:335-338 | some sample starts although the time is up if and only if a head reading fails when the time is up |
| Sampling.SampleBound | server_monitor.c:334-377 | at most ceil(duration/interval) samples, one more only with such a failure |
| Sampling.ExtraSample | server_monitor.c:335-338 | readings with such a failure on which there is one sample more |
| Sampling.IndicesIncrease | server_monitor.c:348-354 | the indices elapsed/interval + 1 of samples with a successful head reading strictly increase and stay in 1..ceil(duration/interval) |
| Sampling.IndexInRange | server_monitor.c:348-354 | such an index is that of the interval of the duration in which the sample starts |
| Sampling.RunIterations | server_monitor.c:297-327 | the logs gain at most the requested samples, all but the last successful, and between any two of them one sleep for exactly the interval; Ok means that all requested ones were taken |
| Sampling.CountedGap | server_monitor.c:297-327 | two consecutive samples of such a run are apart by exactly the interval, the time the first one takes and the overrun of the sleep |
| Sampling.TimedSample | server_monitor.c:340-376 | the rest of the loop's body after a head reading: one sample, one reading, and a stop or a sleep for exactly the shorter of the interval and the time left |
| Sampling.AfterSample | server_monitor.c:364-376 | the part behind a successful sample: a stop if the clock fails or the time is up, otherwise that sleep |
| Sampling.Pause | server_monitor.c:372-376 | the sleep is requested for exactly the shorter of the interval and the time left |
| Sampling.RunDuration | server_monitor.c:329-377 | for every clock the loop ends; what the clock's logs gain are the readings of a run, exactly the samples they admit, at the times of their head readings, and between them sleeps for exactly the shorter of the interval and the time left; the indices shown are those of the readings |
| Sampling.NextHead | server_monitor.c:334-376 | in such a run the head reading behind a sample is later by exactly the shorter of the interval and the time left, the time of sampling and of two readings, and the overrun of the sleep |
| Sampling.GapIsBounded | server_monitor.c:334-376 | consecutive samples start at most one interval and these costs apart |
| Sampling.IdealRun | server_monitor.c:329-377 | if these costs are 0 and no reading or sample fails, there are exactly ceil(duration/interval) samples, sample k at start + k intervals, and the run ends with Ok at start + duration |
| Sampling.RunIsWellTimed | server_monitor.c:329-377 | unless a head reading fails late, all samples of such a run are spaced by the interval and start within the duration |
| Sampling.RunStatus | server_monitor.c:329-385 | such a run ends with Ok if and only if its last reading shows that the time is up, and with an internal error if and only if the first reading or one after a sample failed |
| UsageBar.FilledInRange | server_monitor.c:138-144 | the rounded count lies in 0..width, so that over the reals the two later clamps never fire |
| UsageBar.FilledExtremes | server_monitor.c:132-138 | no hash at 0 percent or below, all hashes at 100 percent or above |
| UsageBar.FilledIsMonotone | server_monitor.c:132-138 | more usage never shows fewer hashes |
| UsageBar.FilledIsNearest | server_monitor.c:138 | the count is within half a cell of the exact share |
| UsageBar.HalfRoundsUp | server_monitor.c:132-138 | between 0 and 100 percent the share is rounded to the nearest cell and a half is rounded up |
| UsageBar.BarIsSplit | server_monitor.c:146-149 | every cell is a hash or a dot, and no hash stands behind a dot |
| UsageBar.BarShowsFilled | server_monitor.c:146-151 | the hashes a reader counts are the filled count, or all cells if fewer fit |
| UsageBar.CountFilled | server_monitor.c:132-144 | cast, division order and the two extra clamps compute the rounded share of the width |
| UsageBar.BuildUsageBar | server_monitor.c:127-151 | the buffer holds the first min(width, size - 1) cells, a terminator inside it, and beyond that its old contents; an empty buffer or width leaves it alone |
| Strtol.ConversionOfNumeral | monitor_config.c:49-53 | on a string that denotes a number, strtol consumes all of it and saturates with a range error exactly outside long |
| Strtol.NumeralIsUnique | monitor_config.c:50 | a string denotes at most one number |
| Strtol.ParseIntCharacterised | monitor_config.c:41-61 | OK with v exactly for whitespace, sign and digits denoting v in [min, max]; range error exactly for such a number within long but outside [min, max]; parse error on everything else |
| Strtol.ParseIntRange | monitor_config.c:41-61 | the method returns that status and writes its output only on OK |
| Strtol.DecimalDenotes | monitor_config.c:50 | the decimal form of an integer denotes it |
| Strtol.ParseDecimal | monitor_config.c:41-61 | the decimal form of every in-range integer parses back to it |
| Strtol.DecimalByDigits | monitor_config.c:50 | a digit behind a decimal form makes ten times its number and the digit; a minus sign in front negates |
| Strtol.SpacesAndSign | monitor_config.c:50 | spaces and a plus sign in front of a number in range do not matter |
| MonitorConfig.ParseBoolIgnoresCase | monitor_config.c:63-81 | the switch words are recognised in any mixture of cases |
| MonitorConfig.ActionAt | monitor_config.c:158-228 | an accepted argument consumes one or two words, never past the end, and its setting is within the limits |
| MonitorConfig.Config.constructor | monitor_config.c:28-39 | the defaults: local, 1000 ms, 60000 ms, interactive, no iteration count |
| MonitorConfig.Config.Store | monitor_config.c:169-225 | a refused value leaves the configuration alone and tells why; an accepted one changes its setting, iterations also the mode |
| MonitorConfig.Config.ApplyEnvironment | monitor_config.c:83-142 | the in-place function computes the environment's specification, settings made before a refusal included |
| MonitorConfig.Config.ApplyArgs | monitor_config.c:144-231 | the in-place loop computes the specification of parsing from argv[1] on: status, help flag and configuration |
| ConfigLaws.ParsingComposes | monitor_config.c:158-228 | if A is accepted without help, parsing A followed by B is parsing B from A's result |
| ConfigLaws.ParseKeepsEqualAfter | monitor_config.c:158-228 | acceptance does not depend on the configuration, and configurations that differ in one setting differ in nothing else afterwards |
| ConfigLaws.LastOccurrenceWins | monitor_config.c:158-228 | an earlier occurrence of a flag can be removed, whatever accepted arguments stand between and whatever follows |
| ConfigLaws.DifferentOptionsCommute | monitor_config.c:158-228 | adjacent well-formed options with different flags can be swapped |
| ConfigLaws.RoundTrip | monitor_config.c:144-231 | every valid configuration with a 1 to 63 character name and iterations within the maximum, printed as arguments, parses from the defaults to exactly itself |
| ConfigLaws.EnvKeepsLimits | monitor_config.c:83-142 | the environment, even refused part-way, leaves every field within its limits and iterations only in non-interactive mode |
| ConfigLaws.ArgsKeepLimits | monitor_config.c:144-231 | so do arguments, even refused ones |
| ConfigLaws.WhenValidationFails | monitor_config.c:233-265 | within the limits, validation fails exactly for a duration shorter than the interval without iterations |
| ConfigLaws.ValidationMeans | monitor_config.c:233-265 | the status of validation for every configuration, in numbers |
| StartupLaws.ParseBoolMeans | monitor_config.c:63-81 | on exactly for 1, true, yes and on, off exactly for 0, false, no and off, in any case of the letters, refused otherwise |
| StartupLaws.EnvRoundTrip | monitor_config.c:83-142 | every valid configuration with a 1 to 63 character name and iterations within the maximum, written as variables with any word for the switch, is read from the defaults as exactly itself |
| StartupLaws.EnvStatus | monitor_config.c:83-142 | the environment is accepted exactly if every variable that is set is a number within its limits or a switch word |
| StartupLaws.EnvFields | monitor_config.c:83-142 | in an accepted environment an unset variable leaves its field alone and a set one gives it the value that it denotes; an empty name is ignored, a long one cut to 63 characters; an iteration count turns the mode on |
| StartupLaws.RefusedKeepsEarlier | monitor_config.c:100-138 | the first variable that is refused gives its status and leaves exactly the settings of those before it |
| StartupLaws.ServerMeans | monitor_config.c:169-181 | --server sets the name, cut to 63 characters, and nothing else, whatever follows |
| StartupLaws.IntervalMeans | monitor_config.c:182-195 | --interval-ms with a number in 100..3600000 sets the interval and nothing else |
| StartupLaws.DurationMeans | monitor_config.c:196-209 | --duration-ms with a number in 1000..86400000 sets the duration and nothing else |
| StartupLaws.IterationsMean | monitor_config.c:210-224 | --iterations with a number in 1..864000 sets the count and the mode |
| StartupLaws.NonInteractiveMeans | monitor_config.c:164-168 | --non-interactive sets the mode and takes one word |
| StartupLaws.StopsMean | monitor_config.c:160-228 | --help and -h stop with Ok; an unknown word, a flag without a value and an empty name are invalid arguments; the settings made before stay |
| StartupLaws.RefusedNumber | monitor_config.c:182-224 | a value that is not a number within the limits of its flag is a range error if it is a long, a parse error otherwise, and what was set before stays |
| StartupLaws.StartupIsLayered | server_monitor.c:395-418 | the arguments behind the program's name are applied to what the environment, even a refused one, has made of the defaults |
| StartupLaws.StartupReaches | server_monitor.c:395-418 | every valid configuration can be given by the environment alone and by the arguments alone, and an argument prevails over the environment |
| ServerMonitor.WithinMaxIterations | monitor_config.h:13-20 | for every configuration within the limits ceil(duration/interval) is between 1 and the largest iteration count |
| ServerMonitor.MonitoringBounds | server_monitor.c:288-386 | a monitoring call in whose run no head reading fails late keeps its interval, takes at most the largest iteration count of samples, in duration mode at most ceil(duration/interval) and all within the duration, and in count mode exactly the count if it succeeds |
| ServerMonitor.WorkingClock | server_monitor.c:92-98 | a clock that never fails does not fail late |
| ServerMonitor.MonitorServerHealth | server_monitor.c:288-386 | the clock's logs gain a run of the mode that the configuration asks for, with this status |
| ServerMonitor.NextInt | server_monitor.c:77-89 | the prompt yields a value in range from an unread line, or end of input |
| ServerMonitor.GetIntegerInput | server_monitor.c:69-90 | the loop finds the first line that is a number in range, and fails only when the input ends |
| ServerMonitor.MenuStepKeepsInv | server_monitor.c:450-481 | settings typed into the menu keep every limit, iterations at 0 and interval <= duration |
| ServerMonitor.MenuCallsAreGood | server_monitor.c:433-493 | whatever is typed, every monitoring call of the session has a valid configuration |
| ServerMonitor.SetInterval | server_monitor.c:450-465 | the interval typed is taken over exactly if it is at most the duration |
| ServerMonitor.SetDuration | server_monitor.c:466-481 | the duration typed is taken over exactly if it is at least the interval |
| ServerMonitor.MonitorFromMenu | server_monitor.c:443-449 | one call more, whose run is what the clock's logs gain |
| ServerMonitor.RunMenu | server_monitor.c:433-493 | the loop makes exactly the calls of the session's specification and ends with its exit status; the clock's logs are the runs of these calls |
| MenuLaws.NextIntMeans | server_monitor.c:77-89 | the prompt takes the number denoted by the first line that is a number within its limits, and uses up the lines up to it; without one it uses up the input |
| MenuLaws.MenuMeans | server_monitor.c:433-493 | one live call for each choice 1 before the first 5 or the end of the input, call k with the settings at the k-th such choice; success exactly if a 5 is reached |
| MenuLaws.IntervalIsLast | server_monitor.c:450-465 | the interval at any moment of a session is the last one typed that was at most the duration of its moment, or that of the start |
| MenuLaws.DurationIsLast | server_monitor.c:466-481 | the duration is the last one typed that was at least the interval of its moment, or that of the start |
| MenuLaws.OthersStay | server_monitor.c:433-493 | no other setting ever changes in a session |
| MenuLaws.SessionsCompose | server_monitor.c:433-493 | if the input ends at the menu, more input goes on from the settings made: the calls are appended and the outcome is that of the rest |
| MenuLaws.TypedIsRead | server_monitor.c:433-493 | every list of choices with admissible values, typed as lines, is read as that list |
| MenuLaws.TypedSession | server_monitor.c:433-493 | so every such list of choices is the session that it describes |
| ServerMonitor.StartupKeepsLimits | server_monitor.c:395-418 | after any environment and arguments the limits hold, and validation can only fail on duration < interval with iterations 0 |
| ServerMonitor.MonitorOnce | server_monitor.c:423-431 | the non-interactive mode makes one call, whose run is what the clock's logs gain, and succeeds exactly if it does |
| ServerMonitor.RunProgram | server_monitor.c:388-496 | exit status and monitoring calls of main in each case: bad arguments, help, invalid configuration, non-interactive (success exactly if the call succeeds), menu; every call is valid, its run is in the clock's logs, and no live one has an iteration count, so that the live fixed-count output (lines 299-315) is never reached |
| CpuUsage.CpuTracker.ReadCpuUsage | monitor.c:13-90 | status of each failure, which touches neither tracker nor output; on success the report of the last and the new reading |
| CpuUsage.TotalDeltaIsTrue | monitor.c:57-70 | though fields and sums wrap, the total delta is the true growth of the unbounded total |
| CpuUsage.IdleDeltaIsTrue | monitor.c:60-71 | likewise the idle delta |
| CpuUsage.NoClampFires | monitor.c:81-87 | before any clamp the quotient is the true busy share and lies in 0..100 |
| CpuUsage.ReportIsExact | monitor.c:57-87 | each report is exactly 100 busy/total of its gap |
| CpuUsage.ReportByPosition | monitor.c:57-87 | a report is the growth of all fields but 3 and 4 in percent of the growth of all ten, and 0 if nothing has grown |
| CpuUsage.IdleAndBusyAlone | monitor.c:57-87 | growth in the fields 3 and 4 alone is reported as 0, growth elsewhere alone as 100 |
| CpuUsage.MissingFieldsAreZero | monitor.c:28-30 | a field that is not there counts as 0 |
| CpuUsage.RunTracker | monitor.c:43-90 | reading a run of visible counters one after the other yields the reports of the successive gaps, after a first 0 |
| CpuUsage.WeightedTelescopes | monitor.c:57-87 | the reports weighted with their total deltas add up to the true busy growth since the first sample |
| CpuUsage.WeightedMean | monitor.c:57-87 | their weighted mean is the usage between the first and the last sample |
| MemInfo.ScanFile | monitor.c:117-133 | the loop stops at the first point where total and available are known; its answer is that of a full scan exactly if the last lines agree, so if no MemTotal or MemAvailable line follows or labels are distinct |
| MemInfo.ScanSeesLast | monitor.c:117-128 | a full scan sees the last line of each of the five labels, 0 for one that is missing |
| MemInfo.FigureOfLastLine | monitor.c:117-128 | the figure of a label is that of the line behind which the label does not occur again |
| MemInfo.AvailableIsMeant | monitor.c:137-139 | available is the MemAvailable figure or, if that is missing or 0, the sum of MemFree, Buffers and Cached modulo 2^64 |
| MemInfo.EarlyExitIsExact | monitor.c:117-142 | after an early exit the answer is that of a full scan if and only if the file's last MemTotal line and what its last lines leave available equal the figures at the exit, or both are refused |
| MemInfo.RestDoesNotMatter | monitor.c:130-132 | lines other than MemTotal and MemAvailable after the exit never change the answer |
| MemInfo.RepeatedLabelMatters | monitor.c:117-133 | a file on which early exit and full scan differ |
| MemInfo.OrderDoesNotMatter | monitor.c:117-139 | every permutation of distinctly labelled lines gives the same answer |
| MemInfo.AnswerIsConsistent | monitor.c:137-155 | success implies 0 <= percent < 100 and used + available = total |
| MemInfo.FiguresMean | monitor.c:145-155 | the figures in terms of kilobytes: total, total - available, and 100 (total - available) / total |
| MemInfo.PercentRange | monitor.c:151 | the percentage is at least 0, 0 exactly if everything is available, and below 100 |
| MemInfo.PercentGrows | monitor.c:151 | with the same total, less available memory means a higher percentage |
| MemInfo.MemoryUsage.ReadMemoryUsage | monitor.c:98-158 | with total and available memory in kB as the last lines before the exit give them, Ok exactly if 0 < available <= total, and then 1048576 times the figures in GB are total and total - available, and the percentage times total is 100 times their difference; the outcome is that of a full scan if labels are distinct or no MemTotal or MemAvailable line follows; a failure leaves the figures untouched |
| Trionic.PeakIsForced | trionic.ts:9-12 | every split has its peak where the first greedy loop stops |
| Trionic.ValleyIsForced | trionic.ts:17-21 | every split has its valley where the second greedy loop stops |
| Trionic.IsTrionic | trionic.ts:1-32 | the scan returns true exactly if some 0 < p < q < n-1 splits the array into rising, falling and rising runs, and it stops at that pair |
| Trionic.SplitIsUnique | trionic.ts:1-32 | there is at most one such pair |
| Trionic.MirrorKeepsAnswer | trionic.ts:1-32 | the answer is invariant under reversing and negating the array |
| TrackedAllocator.HeaderRoundTrip | mem_test.c:16-30 | every size_t written byte by byte into a header is read back |
| TrackedAllocator.HeaderFits | mem_test.c:10 | the requested block has room for its eight header bytes exactly if size + 8 is below 2^64 |
| TrackedAllocator.LargestSizeWraps | mem_test.c:10 | for the largest size_t the block requested has seven bytes |
| TrackedAllocator.LiveBlocksFit | mem_test.c:17-19 | disjoint live blocks with their headers never exceed the address space, so that the counter cannot wrap |
| TrackedAllocator.HeaderWritten | mem_test.c:16 | writing a new header disturbs no other header |
| TrackedAllocator.PayloadWritten | mem_test.c:20 | a write inside a block disturbs no header |
| TrackedAllocator.Allocator.constructor | mem_test.c:6-7 | nothing allocated, tracking off |
| TrackedAllocator.Allocator.TestMalloc | mem_test.c:9-21 | the new block joins the live ones with all headers intact; under tracking the counter stays the sum of live sizes; a failing malloc changes nothing |
| TrackedAllocator.Allocator.TestFree | mem_test.c:23-39 | exactly the freed block leaves, and under tracking the counter drops by exactly its size: the reset to zero never runs; without a right counter it runs exactly for a block larger than the counter |
| TrackedAllocator.Allocator.WritePayload | mem_test.c:20 | client writes inside a block keep every header and the counter |
| TrackedAllocator.Allocator.EnableMemoryTracking | mem_test.c:41-43 | tracking from the start, or from any moment at which the counter is right, makes the ledger claim hold |
| TrackedAllocator.Allocator.DisableMemoryTracking | mem_test.c:45-47 | tracking is off, blocks and counter stay |
| TrackedAllocator.Allocator.GetAllocatedBytes | mem_test.c:49-51 | under tracking the bytes of all live blocks, 0 when there is none |
| TrackedAllocator.Allocator.CheckForLeaks | mem_test.c:53-58 | under tracking the program is ended exactly if some live block has nonzero size |
| Dashboard.PagesPartitionData | docs/index.html:744-770 | pages 1..totalPages, concatenated, are the data exactly, all but the last full, and never more than 100 |
| Dashboard.LastPageIsUsed | docs/index.html:768-770 | the last page holds 1 to 10 records; an empty store has one page |
| Dashboard.PagesBehindTheLastAreEmpty | docs/index.html:744-747 | a page behind the last one, reachable after deletions, is empty |
| Dashboard.DeletionLosesPage | docs/index.html:760-770 | a deletion leaves a page behind the last one exactly if it was the last page, beyond the first, with one record |
| Dashboard.FindIndex | docs/index.html:751 | the first record with the id, -1 exactly if there is none |
| Dashboard.StateManager.constructor | docs/index.html:712-946 | the 25 sample records, newest first, page 1, no timer, sample rate 5000 |
| Dashboard.StateManager.Create | docs/index.html:725-741 | the new record comes first, every other one moves one place down, and beyond 1000 the last is dropped |
| Dashboard.PushedShifts | docs/index.html:734-739 | a new record moves record i to i + 1, and only the last of 1000 is lost |
| Dashboard.StateManager.Read | docs/index.html:744-747 | for an existing page the ten records from its start on, or what is left of them; nothing behind the last page |
| Dashboard.StateManager.Update | docs/index.html:750-757 | changes the first record with the id and no other, or nothing |
| Dashboard.StateManager.Delete | docs/index.html:760-766 | removes the first record with the id and no other, or nothing |
| Dashboard.StateManager.RenderGrid | docs/index.html:775-787 | the buttons are disabled exactly on the first page and from the last page on |
| Dashboard.StateManager.ClickPrevious | docs/index.html:665-874 | a disabled button does nothing; otherwise one page back, never before page 1 |
| Dashboard.StateManager.ClickNext | docs/index.html:667-874 | one page on exactly if there is one, so that the page stays within 1..100 |
| Dashboard.StateManager.ChangePage | docs/index.html:871-874 | the page moves and the buttons are up to date |
| Dashboard.StateManager.Tick | docs/index.html:862-869 | one record more, at most 1000, buttons up to date |
| Dashboard.StateManager.TimerFires | docs/index.html:854-869 | a timer can only fire while monitoring; it adds a record and leaves page and timers alone |
| Dashboard.StateManager.EditRecord | docs/index.html:881-884 | only the first record with the id changes; page and timers stay |
| Dashboard.StateManager.DeleteRecord | docs/index.html:886-892 | nothing without confirmation; the page is not clamped, stays within 1..100, and ends up behind the last page exactly if the only record of a last page beyond the first is deleted |
| Dashboard.StateManager.ToggleMonitoring | docs/index.html:846-860 | starting adds a record and one timer of period sampleRate, stopping leaves no timer |
| Dashboard.StateManager.UpdateInterval | docs/index.html:905-911 | while monitoring there is again exactly one timer, with the new period; otherwise none |

## Left out

- TrackedAllocator.Allocator.TestMalloc: sizes for which size + sizeof(size_t) wraps are excluded, because the C program then writes its header outside the block; `HeaderFits` says which sizes these are. Where malloc places a block is the caller's choice of a free place.
- TrackedAllocator.Allocator.CheckForLeaks: the claim about live blocks holds under tracking from the start; blocks allocated or freed while tracking is off are not in the counter, in the program as in the model.
- ProcessManagement.ProcessManager.ListProcesses: one call at a time only; copying an entry while another thread writes its fields is not modelled for the list, whose entries can be torn as the answers of `getProcessInfo` can.
- LockedCounter.App.ValidateInputs: takes the numbers that `atoi` yields; the empty entry text counts as 0, which is refused alike.
- ServerMonitor.GetIntegerInput: its lines are the pieces that `fgets` delivers with the newline cut off, so that a typed line over 127 characters is several of them.
- Sampling.TakeSample: what a sample reads and prints is left open; it lasts any time and may fail.
- `int` overflow of `globalCounter` and of process ids; shared single-word accesses are sequentially consistent.
- Failing allocation, thread creation, join or mutex operations in `pthread_neural_network.c`.
- Floating-point rounding, NaN and infinities: `double` and `number` are reals.
- Strings are the contents of C strings, one `char` per byte, in the "C" locale; `long` has 64 bits.
- Null pointers answered with an invalid-argument status, and the texts put into error buffers.
- GTK widgets, terminal drawing, colours, usage labels, help text, error messages and HTML.
- Opening `/proc` files, `getenv`, `fgets`, `access` and process creation are inputs; so is what `fscanf` reads from a line. The Windows branch of `createProcessImpl` is not modelled.
- `removeProcess` of `system_lib.hpp`, which no API call uses.
- Uniqueness of dashboard record ids, which come from the clock and can repeat: update and delete act on the first match. Its `exportData`, `selectRecord`, `updateServer` and `closeModal` change no modelled state.
- `scheduler.cpp`, `test_framework.c`, `syscall_test.c`, `integration_test.cpp`, `kmod_test.hpp`, `monitor_status.c`, `system_info_generator.cpp`, `troubleshooter_check.c` and `docs/main.js`: counting, tables or presentation that would only add easy members.
