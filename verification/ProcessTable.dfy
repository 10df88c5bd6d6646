/**
  The process table of system_lib.hpp as a concurrent state machine.

  Any number of API calls may be in flight, each cut at every access to shared data: the atomic id
  counter, the locked table operations, and the unlocked reads and writes of isRunning and
  exitCode.  A successful executeProcess leaves a detached completion behind that fires later.
*/
module ProcessTable {
  import opened Common

  datatype SystemError = Success | InvalidCommand | ProcessNotFound | ExecutionFailed

  datatype ProcessInfo = ProcessInfo(processId: int, command: string, isRunning: bool, exitCode: int)

  type Table = map<int, ProcessInfo>

  // ---------------------------------------------------------------------------------------------
  // Commands

  const DANGEROUS: seq<string> := [";", "|", "&", ">", "<", "`", "$("]

  predicate MatchesAt(s: string, pattern: string, i: nat) {
    i + |pattern| <= |s| && s[i..i + |pattern|] == pattern
  }

  predicate Contains(s: string, pattern: string) {
    exists i :: 0 <= i <= |s| && MatchesAt(s, pattern, i)
  }

  predicate IsValidCommand(command: string) {
    command != "" && forall k :: 0 <= k < |DANGEROUS| ==> !Contains(command, DANGEROUS[k])
  }

  predicate IsForbidden(c: char) {
    c in {';', '|', '&', '>', '<', '`'}
  }

  lemma ContainsCharacter(s: string, c: char)
    ensures Contains(s, [c]) <==> c in s
  {
    if c in s {
      var i :| 0 <= i < |s| && s[i] == c;
      assert s[i..i + 1] == [c];
      assert MatchesAt(s, [c], i);
    }
    if Contains(s, [c]) {
      var i :| 0 <= i <= |s| && MatchesAt(s, [c], i);
      assert s[i..i + 1][0] == s[i];
    }
  }

  /** A dollar sign at position i and a parenthesis behind it. */
  predicate SubstitutionAt(s: string, i: nat) {
    i + 1 < |s| && s[i] == '$' && s[i + 1] == '('
  }

  lemma ContainsSubstitution(s: string)
    ensures Contains(s, "$(") <==> exists i: nat :: SubstitutionAt(s, i)
  {
    if i: nat :| SubstitutionAt(s, i) {
      assert s[i..i + 2] == "$(";
      assert MatchesAt(s, "$(", i);
    }
    if Contains(s, "$(") {
      var i :| 0 <= i <= |s| && MatchesAt(s, "$(", i);
      assert s[i..i + 2][0] == s[i] && s[i..i + 2][1] == s[i + 1];
      assert SubstitutionAt(s, i);
    }
  }

  /** The admissible commands, by their characters. */
  lemma ValidCommandCharacters(command: string)
    ensures IsValidCommand(command) <==>
            && command != ""
            && (forall i :: 0 <= i < |command| ==> !IsForbidden(command[i]))
            && (forall i: nat :: !SubstitutionAt(command, i))
  {
    ContainsCharacter(command, ';');
    ContainsCharacter(command, '|');
    ContainsCharacter(command, '&');
    ContainsCharacter(command, '>');
    ContainsCharacter(command, '<');
    ContainsCharacter(command, '`');
    ContainsSubstitution(command);
    assert DANGEROUS[0] == ";" && DANGEROUS[1] == "|" && DANGEROUS[2] == "&" && DANGEROUS[3] == ">";
    assert DANGEROUS[4] == "<" && DANGEROUS[5] == "`" && DANGEROUS[6] == "$(";
  }

  /** Some character of the command is not a space. */
  predicate HasWord(command: string) {
    exists i :: 0 <= i < |command| && !IsSpace(command[i])
  }

  /** createProcessImpl: the command must hold a word, and access must find it executable. */
  function CheckExecutable(command: string, accessible: bool): SystemError {
    if forall i :: 0 <= i < |command| ==> IsSpace(command[i]) then InvalidCommand
    else if !accessible then ExecutionFailed
    else Success
  }

  // ---------------------------------------------------------------------------------------------
  // Calls in flight

  datatype Task =
    | CreateCall(command: string)
    | CreateIssued(id: int, command: string)
    | ExecuteCall(id: int)
    | ExecuteFound(id: int)
    | ExecuteMark(id: int)
    | ExecuteSpawn(id: int)        // isRunning is set, the completion is not yet detached
    | Sleeping(id: int)            // a detached completion
    | FireFound(id: int)
    | FireCleared(id: int)
    | TerminateCall(id: int)
    | TerminateFound(id: int)
    | TerminateStop(id: int)
    | TerminateStopped(id: int)
    | InfoCall(id: int)
    | InfoFound(id: int)
    | InfoRead(id: int, running: bool)
    | Finished(result: SystemError)
    | Answered(info: ProcessInfo)
    | Fired

  predicate IsCall(task: Task) {
    task.CreateCall? || task.ExecuteCall? || task.TerminateCall? || task.InfoCall?
  }

  predicate IsDone(task: Task) {
    task.Finished? || task.Answered? || task.Fired?
  }

  datatype State = State(next: int, table: Table, tasks: seq<Task>)

  const FIRST_ID_BASE := 1000

  const INIT := State(FIRST_ID_BASE, map[], [])

  /** What one shared access of a task does: its continuation, the task it starts (if any), and the
      new contents of the shared data. */
  datatype Effect = Effect(task: Task, spawned: seq<Task>, next: int, table: Table)

  function SetRunning(table: Table, id: int, running: bool): Table {
    if id in table then table[id := table[id].(isRunning := running)] else table
  }

  function SetExitCode(table: Table, id: int, code: int): Table {
    if id in table then table[id := table[id].(exitCode := code)] else table
  }

  /** The completion, or an execute call about to detach one, that will still clear isRunning. */
  predicate WillClear(task: Task, id: int) {
    task == ExecuteSpawn(id) || task == Sleeping(id) || task == FireFound(id)
  }

  /** The same, up to the write of exitCode. */
  predicate WillZero(task: Task, id: int) {
    WillClear(task, id) || task == FireCleared(id)
  }

  ghost predicate SomeWillClear(tasks: seq<Task>, id: int) {
    exists i :: 0 <= i < |tasks| && WillClear(tasks[i], id)
  }

  predicate SomeWillZero(tasks: seq<Task>, id: int) {
    exists i :: 0 <= i < |tasks| && WillZero(tasks[i], id)
  }

  function Act(s: State, task: Task, accessible: bool): Effect
    requires !IsDone(task)
  {
    var same := Effect(task, [], s.next, s.table);
    match task
    case CreateCall(command) =>
      if !IsValidCommand(command) then same.(task := Finished(InvalidCommand))
      else same.(task := CreateIssued(s.next + 1, command), next := s.next + 1)
    case CreateIssued(id, command) =>
      var result := CheckExecutable(command, accessible);
      if result != Success then same.(task := Finished(result))
      else same.(task := Finished(Success), table := s.table[id := ProcessInfo(id, command, false, 0)])
    case ExecuteCall(id) =>
      same.(task := if id in s.table then ExecuteFound(id) else Finished(ProcessNotFound))
    case ExecuteFound(id) =>
      same.(task := if id in s.table && s.table[id].isRunning then Finished(Success) else ExecuteMark(id))
    case ExecuteMark(id) => same.(task := ExecuteSpawn(id), table := SetRunning(s.table, id, true))
    case ExecuteSpawn(id) => same.(task := Finished(Success), spawned := [Sleeping(id)])
    case Sleeping(id) => same.(task := if id in s.table then FireFound(id) else Fired)
    case FireFound(id) => same.(task := FireCleared(id), table := SetRunning(s.table, id, false))
    case FireCleared(id) =>
      same.(task := Fired, table := SetExitCode(s.table, id, 0))
    case TerminateCall(id) =>
      same.(task := if id in s.table then TerminateFound(id) else Finished(ProcessNotFound))
    case TerminateFound(id) =>
      same.(task := if id in s.table && s.table[id].isRunning then TerminateStop(id) else Finished(Success))
    case TerminateStop(id) => same.(task := TerminateStopped(id), table := SetRunning(s.table, id, false))
    case TerminateStopped(id) =>
      same.(task := Finished(Success), table := SetExitCode(s.table, id, -1))
    case InfoCall(id) =>
      same.(task := if id in s.table then InfoFound(id) else Finished(ProcessNotFound))
    case InfoFound(id) => same.(task := InfoRead(id, id in s.table && s.table[id].isRunning))
    case InfoRead(id, running) =>
      same.(task := if id in s.table then Answered(s.table[id].(isRunning := running)) else Fired)
  }

  datatype Step = Call(task: Task) | Advance(index: nat, accessible: bool)

  predicate Enabled(s: State, step: Step) {
    match step
    case Call(task) => IsCall(task)
    case Advance(i, _) => i < |s.tasks| && !IsDone(s.tasks[i])
  }

  function Apply(s: State, step: Step): State
    requires Enabled(s, step)
  {
    match step
    case Call(task) => s.(tasks := s.tasks + [task])
    case Advance(i, accessible) =>
      var e := Act(s, s.tasks[i], accessible);
      State(e.next, e.table, s.tasks[i := e.task] + e.spawned)
  }

  // ---------------------------------------------------------------------------------------------
  // The invariant

  ghost predicate EntryOk(s: State, id: int)
    requires id in s.table
  {
    && FIRST_ID_BASE < id <= s.next
    && s.table[id].processId == id
    && IsValidCommand(s.table[id].command)
    && (s.table[id].exitCode == 0 || s.table[id].exitCode == -1)
  }

  /** An id in flight is fresh; an id that a call has looked up is in the table. */
  ghost predicate TaskOk(s: State, task: Task) {
    match task
    case CreateIssued(id, command) => FIRST_ID_BASE < id <= s.next && id !in s.table && IsValidCommand(command)
    case ExecuteFound(id) => id in s.table
    case ExecuteMark(id) => id in s.table
    case ExecuteSpawn(id) => id in s.table
    case Sleeping(id) => id in s.table
    case FireFound(id) => id in s.table
    case FireCleared(id) => id in s.table
    case TerminateFound(id) => id in s.table
    case TerminateStop(id) => id in s.table
    case TerminateStopped(id) => id in s.table
    case InfoFound(id) => id in s.table
    case InfoRead(id, _) => id in s.table
    case _ => true
  }

  ghost predicate Unique(tasks: seq<Task>) {
    forall i, j :: 0 <= i < j < |tasks| && tasks[i].CreateIssued? && tasks[j].CreateIssued? ==>
      tasks[i].id != tasks[j].id
  }

  ghost predicate IdInv(s: State) {
    && FIRST_ID_BASE <= s.next
    && (forall id :: id in s.table ==> EntryOk(s, id))
    && (forall i :: 0 <= i < |s.tasks| ==> TaskOk(s, s.tasks[i]))
    && Unique(s.tasks)
  }

  /** A process marked running has a completion, or an execute call about to detach one. */
  ghost predicate RunInv(s: State) {
    forall id :: id in s.table && s.table[id].isRunning ==> SomeWillClear(s.tasks, id)
  }

  ghost predicate Inv(s: State) {
    IdInv(s) && RunInv(s)
  }

  // ---------------------------------------------------------------------------------------------
  // Every step keeps the invariant

  lemma EntriesStayOk(s: State, i: nat, accessible: bool)
    requires IdInv(s) && i < |s.tasks| && !IsDone(s.tasks[i]) && !s.tasks[i].CreateIssued?
    ensures var s' := Apply(s, Advance(i, accessible));
            && s'.table.Keys == s.table.Keys && s.next <= s'.next
            && forall id :: id in s'.table ==> EntryOk(s', id)
  {
    var s' := Apply(s, Advance(i, accessible));
    assert TaskOk(s, s.tasks[i]);
    forall id | id in s'.table
      ensures EntryOk(s', id)
    {
      assert EntryOk(s, id);
    }
  }

  lemma IdsStayFresh(s: State, i: nat, accessible: bool)
    requires IdInv(s) && i < |s.tasks| && !IsDone(s.tasks[i])
    ensures IdInv(Apply(s, Advance(i, accessible)))
  {
    var e := Act(s, s.tasks[i], accessible);
    var s' := Apply(s, Advance(i, accessible));
    if s.tasks[i].CreateIssued? {
      EntryAddedKeepsTasks(s, s', i);
    } else {
      EntriesStayOk(s, i, accessible);
      assert TaskOk(s, s.tasks[i]);
      forall k | 0 <= k < |s'.tasks|
        ensures TaskOk(s', s'.tasks[k])
      {
        if k != i && k < |s.tasks| { assert TaskOk(s, s.tasks[k]); }
      }
      UniqueAfter(s, e, i);
    }
  }

  lemma EntryAddedKeepsTasks(s: State, s': State, i: nat)
    requires IdInv(s) && i < |s.tasks| && s.tasks[i].CreateIssued?
    requires exists accessible :: s' == Apply(s, Advance(i, accessible))
    ensures IdInv(s')
  {
    assert TaskOk(s, s.tasks[i]);
    forall id | id in s'.table
      ensures EntryOk(s', id)
    {
      if id in s.table { assert EntryOk(s, id); }
    }
    forall k | 0 <= k < |s'.tasks|
      ensures TaskOk(s', s'.tasks[k])
    {
      if k != i { assert TaskOk(s, s.tasks[k]); }
    }
  }

  lemma UniqueAfter(s: State, e: Effect, i: nat)
    requires IdInv(s) && i < |s.tasks| && !IsDone(s.tasks[i]) && !s.tasks[i].CreateIssued?
    requires exists accessible :: e == Act(s, s.tasks[i], accessible)
    ensures Unique(s.tasks[i := e.task] + e.spawned)
  {
    forall k | 0 <= k < |s.tasks| && s.tasks[k].CreateIssued?
      ensures s.tasks[k].id <= s.next
    {
      assert TaskOk(s, s.tasks[k]);
    }
  }

  /** Task i may be replaced, and tasks appended, as long as someone still answers for id. */
  lemma StillCleared(tasks: seq<Task>, i: nat, task: Task, spawned: seq<Task>, id: int)
    requires i < |tasks| && SomeWillClear(tasks, id)
    requires WillClear(tasks[i], id) ==> WillClear(task, id) || SomeWillClear(spawned, id)
    ensures SomeWillClear(tasks[i := task] + spawned, id)
  {
    var tasks' := tasks[i := task] + spawned;
    var k :| 0 <= k < |tasks| && WillClear(tasks[k], id);
    if k != i {
      assert WillClear(tasks'[k], id);
    } else if WillClear(task, id) {
      assert WillClear(tasks'[i], id);
    } else {
      var m :| 0 <= m < |spawned| && WillClear(spawned[m], id);
      assert WillClear(tasks'[|tasks| + m], id);
    }
  }

  lemma StillZeroed(tasks: seq<Task>, i: nat, task: Task, spawned: seq<Task>, id: int)
    requires i < |tasks| && SomeWillZero(tasks, id)
    requires WillZero(tasks[i], id) ==> WillZero(task, id) || SomeWillZero(spawned, id)
    ensures SomeWillZero(tasks[i := task] + spawned, id)
  {
    var tasks' := tasks[i := task] + spawned;
    var k :| 0 <= k < |tasks| && WillZero(tasks[k], id);
    if k != i {
      assert WillZero(tasks'[k], id);
    } else if WillZero(task, id) {
      assert WillZero(tasks'[i], id);
    } else {
      var m :| 0 <= m < |spawned| && WillZero(spawned[m], id);
      assert WillZero(tasks'[|tasks| + m], id);
    }
  }

  lemma RunningStaysBacked(s: State, i: nat, accessible: bool)
    requires IdInv(s) && RunInv(s) && i < |s.tasks| && !IsDone(s.tasks[i])
    ensures RunInv(Apply(s, Advance(i, accessible)))
  {
    var task := s.tasks[i];
    var e := Act(s, task, accessible);
    var s' := Apply(s, Advance(i, accessible));
    assert TaskOk(s, task);
    forall id | id in s'.table && s'.table[id].isRunning
      ensures SomeWillClear(s'.tasks, id)
    {
      if task == ExecuteMark(id) {
        assert WillClear(s'.tasks[i], id);
      } else {
        if task == ExecuteSpawn(id) {
          assert WillClear(e.spawned[0], id);
        }
        StillCleared(s.tasks, i, e.task, e.spawned, id);
      }
    }
  }

  lemma CallKeepsInv(s: State, task: Task)
    requires Inv(s) && IsCall(task)
    ensures Inv(Apply(s, Call(task)))
  {
    var s' := Apply(s, Call(task));
    forall k | 0 <= k < |s'.tasks|
      ensures TaskOk(s', s'.tasks[k])
    {
      if k < |s.tasks| { assert TaskOk(s, s.tasks[k]); }
    }
    forall id | id in s'.table
      ensures EntryOk(s', id)
      ensures s.table[id].isRunning ==> SomeWillClear(s'.tasks, id)
    {
      assert EntryOk(s, id);
      if s.table[id].isRunning {
        var k :| 0 <= k < |s.tasks| && WillClear(s.tasks[k], id);
        assert WillClear(s'.tasks[k], id);
      }
    }
  }

  lemma StepKeepsInv(s: State, step: Step)
    requires Inv(s) && Enabled(s, step)
    ensures Inv(Apply(s, step))
  {
    match step
    case Call(task) => CallKeepsInv(s, task);
    case Advance(i, accessible) =>
      IdsStayFresh(s, i, accessible);
      RunningStaysBacked(s, i, accessible);
  }

  // ---------------------------------------------------------------------------------------------
  // Every run

  type GoodState = s: State | Inv(s) witness INIT

  /** The steps can be taken one after the other from the initial state on. */
  ghost predicate ValidRun(steps: seq<Step>)
    decreases |steps|, 0
  {
    var n := |steps| - 1;
    steps == [] || (ValidRun(steps[..n]) && Enabled(After(steps[..n]), steps[n]))
  }

  ghost function After(steps: seq<Step>): State
    requires ValidRun(steps)
    decreases |steps|, 1
  {
    var n := |steps| - 1;
    if steps == [] then INIT else Apply(After(steps[..n]), steps[n])
  }

  /** Every interleaving of any calls and completions keeps the invariant. */
  lemma {:induction false} RunKeepsInv(steps: seq<Step>)
    requires ValidRun(steps)
    ensures Inv(After(steps))
    decreases |steps|
  {
    if steps != [] {
      var n := |steps| - 1;
      RunKeepsInv(steps[..n]);
      StepKeepsInv(After(steps[..n]), steps[n]);
    }
  }

  /** At field-step granularity, a process marked running has an unfired completion, or an execute
      call that has set isRunning and is about to detach one. */
  lemma RunningHasCompletion(steps: seq<Step>, id: int)
    requires ValidRun(steps)
    requires var s := After(steps); id in s.table && s.table[id].isRunning
    ensures var s := After(steps);
            exists i :: 0 <= i < |s.tasks| && s.tasks[i] in {ExecuteSpawn(id), Sleeping(id), FireFound(id)}
  {
    RunKeepsInv(steps);
    var s := After(steps);
    var i :| 0 <= i < |s.tasks| && WillClear(s.tasks[i], id);
    assert s.tasks[i] in {ExecuteSpawn(id), Sleeping(id), FireFound(id)};
  }

  /** An id handed to a create call is in nobody else's hands: not in the table, so that insertion
      overwrites nothing, and not issued to another call. */
  lemma IssuedIdsAreFresh(steps: seq<Step>, i: nat, j: nat)
    requires ValidRun(steps)
    requires var s := After(steps); i < |s.tasks| && s.tasks[i].CreateIssued?
    ensures var s := After(steps);
            && 1000 < s.tasks[i].id <= s.next && s.tasks[i].id !in s.table
            && (j < |s.tasks| && j != i && s.tasks[j].CreateIssued? ==> s.tasks[j].id != s.tasks[i].id)
  {
    RunKeepsInv(steps);
    var s := After(steps);
    assert TaskOk(s, s.tasks[i]);
  }

  /** Every entry is filed under its own id and holds an admissible command. */
  lemma EntriesAreSound(steps: seq<Step>, id: int)
    requires ValidRun(steps) && id in After(steps).table
    ensures var s := After(steps);
            && 1000 < id <= s.next
            && s.table[id].processId == id && IsValidCommand(s.table[id].command)
            && s.table[id].exitCode in {0, -1}
  {
    RunKeepsInv(steps);
    assert EntryOk(After(steps), id);
  }

  ghost predicate Extends(s: State, s': State) {
    && s.next <= s'.next
    && forall id :: id in s.table ==> id in s'.table && s'.table[id].command == s.table[id].command
  }

  lemma StepExtends(s: State, step: Step)
    requires Inv(s) && Enabled(s, step)
    ensures Extends(s, Apply(s, step))
  {
    if step.Advance? {
      assert TaskOk(s, s.tasks[step.index]);
    }
  }

  /** The state after the first k steps. */
  ghost function AfterFirst(steps: seq<Step>, k: nat): State
    requires ValidRun(steps) && k <= |steps|
    decreases |steps|
  {
    if k == |steps| then After(steps) else AfterFirst(steps[..|steps| - 1], k)
  }

  /** No call removes or renames an entry: one that was looked up stays for the rest of the run. */
  lemma {:induction false} EntriesStay(steps: seq<Step>, k: nat)
    requires ValidRun(steps) && k <= |steps|
    ensures Extends(AfterFirst(steps, k), After(steps))
    decreases |steps|
  {
    if k < |steps| {
      var n := |steps| - 1;
      EntriesStay(steps[..n], k);
      RunKeepsInv(steps[..n]);
      StepExtends(After(steps[..n]), steps[n]);
    }
  }

  // ---------------------------------------------------------------------------------------------
  // Coming to rest

  ghost predicate Quiet(s: State) {
    forall i :: 0 <= i < |s.tasks| ==> IsDone(s.tasks[i])
  }

  lemma NothingPending(s: State, id: int)
    requires Quiet(s)
    ensures !SomeWillClear(s.tasks, id) && !SomeWillZero(s.tasks, id)
  {
  }

  /** The shared accesses a task has left, those of a completion it will detach included. */
  function Left(task: Task): nat {
    match task
    case CreateCall(_) => 2
    case CreateIssued(_, _) => 1
    case ExecuteCall(_) => 7
    case ExecuteFound(_) => 6
    case ExecuteMark(_) => 5
    case ExecuteSpawn(_) => 4
    case Sleeping(_) => 3
    case FireFound(_) => 2
    case FireCleared(_) => 1
    case TerminateCall(_) => 4
    case TerminateFound(_) => 3
    case TerminateStop(_) => 2
    case TerminateStopped(_) => 1
    case InfoCall(_) => 3
    case InfoFound(_) => 2
    case InfoRead(_, _) => 1
    case Finished(_) => 0
    case Answered(_) => 0
    case Fired => 0
  }

  function LeftEach(tasks: seq<Task>): seq<int> {
    seq(|tasks|, i requires 0 <= i < |tasks| => Left(tasks[i]))
  }

  function Work(s: State): int {
    Sum(LeftEach(s.tasks))
  }

  lemma WorkNonNegative(s: State)
    ensures Work(s) >= 0
  {
    SumNonNegative(LeftEach(s.tasks));
  }

  lemma {:induction false} SumOne(x: int)
    ensures Sum([x]) == x
  {
    assert [x][..0] == [];
  }

  lemma ActDecreasesLeft(s: State, task: Task, accessible: bool)
    requires !IsDone(task)
    ensures var e := Act(s, task, accessible); Left(e.task) + Sum(LeftEach(e.spawned)) < Left(task)
  {
    var e := Act(s, task, accessible);
    if task.ExecuteSpawn? {
      assert LeftEach(e.spawned) == [3];
      SumOne(3);
    } else {
      assert LeftEach(e.spawned) == [];
    }
  }

  lemma ReplaceWork(tasks: seq<Task>, i: nat, task: Task, spawned: seq<Task>)
    requires i < |tasks|
    ensures Sum(LeftEach(tasks[i := task] + spawned))
         == Sum(LeftEach(tasks)) - Left(tasks[i]) + Left(task) + Sum(LeftEach(spawned))
  {
    var left := LeftEach(tasks);
    assert LeftEach(tasks[i := task] + spawned) == left[i := Left(task)] + LeftEach(spawned);
    SumUpdate(left, i, Left(task));
    SumAppend(left[i := Left(task)], LeftEach(spawned));
  }

  /** Once calls stop, every step of any task brings the system closer to rest. */
  lemma AdvanceDecreasesWork(s: State, i: nat, accessible: bool)
    requires i < |s.tasks| && !IsDone(s.tasks[i])
    ensures 0 <= Work(Apply(s, Advance(i, accessible))) < Work(s)
  {
    var e := Act(s, s.tasks[i], accessible);
    WorkNonNegative(Apply(s, Advance(i, accessible)));
    ActDecreasesLeft(s, s.tasks[i], accessible);
    ReplaceWork(s.tasks, i, e.task, e.spawned);
  }
}
