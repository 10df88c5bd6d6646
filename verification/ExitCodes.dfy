/**
  What becomes of exit codes when calls are cut at their shared accesses: at rest a process has exit
  code -1 exactly if a terminateProcess was between its test and its store when the last completion
  stored 0.
*/
module ExitCodes {
  import opened ProcessTable

  /** The step by which a completion of the process stores its exit code 0. */
  predicate ZeroStep(s: State, step: Step, id: int) {
    step.Advance? && step.index < |s.tasks| && s.tasks[step.index] == FireCleared(id)
  }

  predicate IsPastTest(task: Task, id: int) {
    task == TerminateStop(id) || task == TerminateStopped(id)
  }

  /** Some terminateProcess has seen the process running and has not yet stored its -1. */
  ghost predicate PastTest(s: State, id: int) {
    exists i :: 0 <= i < |s.tasks| && IsPastTest(s.tasks[i], id)
  }

  /** Step p of the run stores the exit code 0. */
  ghost predicate StoresZero(steps: seq<Step>, p: nat, id: int)
    requires ValidRun(steps)
  {
    p < |steps| && ZeroStep(AfterFirst(steps, p), steps[p], id)
  }

  ghost predicate LastStoresZero(steps: seq<Step>, p: nat, id: int)
    requires ValidRun(steps)
  {
    StoresZero(steps, p, id) && forall q: nat :: p < q < |steps| ==> !StoresZero(steps, q, id)
  }

  /** When the last completion of the process stored its 0, a terminateProcess was past its test. */
  ghost predicate Overlapped(steps: seq<Step>, id: int)
    requires ValidRun(steps)
  {
    exists p: nat :: LastStoresZero(steps, p, id) && PastTest(AfterFirst(steps, p), id)
  }

  /** The same, step by step. */
  ghost function NowOverlapped(s: State, step: Step, id: int, before: bool): bool {
    if ZeroStep(s, step, id) then PastTest(s, id) else before
  }

  lemma PrefixStoresZero(steps: seq<Step>, p: nat, id: int)
    requires ValidRun(steps) && p < |steps| - 1
    ensures var front := steps[..|steps| - 1];
            && AfterFirst(steps, p) == AfterFirst(front, p)
            && (StoresZero(steps, p, id) <==> StoresZero(front, p, id))
  {
  }

  lemma LastStep(steps: seq<Step>, id: int)
    requires ValidRun(steps) && steps != []
    ensures var n := |steps| - 1;
            && AfterFirst(steps, n) == After(steps[..n])
            && (StoresZero(steps, n, id) <==> ZeroStep(After(steps[..n]), steps[n], id))
  {
    var n := |steps| - 1;
    assert AfterFirst(steps, n) == AfterFirst(steps[..n], n);
  }

  lemma LastStaysLast(steps: seq<Step>, p: nat, id: int)
    requires ValidRun(steps) && p < |steps| - 1 && !StoresZero(steps, |steps| - 1, id)
    ensures LastStoresZero(steps, p, id) <==> LastStoresZero(steps[..|steps| - 1], p, id)
  {
    var front := steps[..|steps| - 1];
    forall q: nat | p <= q < |front|
      ensures StoresZero(steps, q, id) <==> StoresZero(front, q, id)
    {
      PrefixStoresZero(steps, q, id);
    }
  }

  lemma OverlapAfterOther(steps: seq<Step>, id: int)
    requires ValidRun(steps) && steps != [] && !StoresZero(steps, |steps| - 1, id)
    ensures Overlapped(steps, id) <==> Overlapped(steps[..|steps| - 1], id)
  {
    var front := steps[..|steps| - 1];
    if Overlapped(steps, id) {
      var p: nat :| LastStoresZero(steps, p, id) && PastTest(AfterFirst(steps, p), id);
      PrefixStoresZero(steps, p, id);
      LastStaysLast(steps, p, id);
    }
    if Overlapped(front, id) {
      var p: nat :| LastStoresZero(front, p, id) && PastTest(AfterFirst(front, p), id);
      PrefixStoresZero(steps, p, id);
      LastStaysLast(steps, p, id);
    }
  }

  lemma OverlapAfterStep(steps: seq<Step>, id: int)
    requires ValidRun(steps) && steps != []
    ensures var n := |steps| - 1;
            Overlapped(steps, id) == NowOverlapped(After(steps[..n]), steps[n], id, Overlapped(steps[..n], id))
  {
    var n := |steps| - 1;
    LastStep(steps, id);
    if StoresZero(steps, n, id) {
      assert LastStoresZero(steps, n, id);
    } else {
      OverlapAfterOther(steps, id);
    }
  }

  // ---------------------------------------------------------------------------------------------
  // The invariant behind the exact condition

  ghost predicate Stopping(s: State, id: int) {
    id in s.table && (s.table[id].exitCode == -1 || PastTest(s, id))
  }

  /** An overlap leaves -1 behind, now or soon; and -1 without an overlap will be overwritten. */
  ghost predicate Explains(s: State, id: int, overlapped: bool) {
    && (overlapped ==> Stopping(s, id))
    && (Stopping(s, id) ==> overlapped || SomeWillZero(s.tasks, id))
  }

  lemma PastTestStays(s: State, i: nat, accessible: bool, id: int)
    requires i < |s.tasks| && !IsDone(s.tasks[i]) && PastTest(s, id) && s.tasks[i] != TerminateStopped(id)
    ensures PastTest(Apply(s, Advance(i, accessible)), id)
  {
    var s' := Apply(s, Advance(i, accessible));
    var k :| 0 <= k < |s.tasks| && IsPastTest(s.tasks[k], id);
    assert IsPastTest(s'.tasks[k], id);
  }

  lemma PastTestIsOld(s: State, i: nat, accessible: bool, id: int)
    requires i < |s.tasks| && !IsDone(s.tasks[i]) && PastTest(Apply(s, Advance(i, accessible)), id)
    requires s.tasks[i] != TerminateFound(id)
    ensures PastTest(s, id)
  {
    var s' := Apply(s, Advance(i, accessible));
    var k :| 0 <= k < |s'.tasks| && IsPastTest(s'.tasks[k], id);
    assert k < |s.tasks| && IsPastTest(s.tasks[k], id);
  }

  lemma PastTestIsInTable(s: State, id: int)
    requires IdInv(s) && PastTest(s, id)
    ensures id in s.table
  {
    var k :| 0 <= k < |s.tasks| && IsPastTest(s.tasks[k], id);
    assert TaskOk(s, s.tasks[k]);
  }

  lemma WillZeroStays(s: State, i: nat, accessible: bool, id: int)
    requires IdInv(s) && i < |s.tasks| && !IsDone(s.tasks[i]) && s.tasks[i] != FireCleared(id)
    requires SomeWillZero(s.tasks, id)
    ensures SomeWillZero(Apply(s, Advance(i, accessible)).tasks, id)
  {
    var e := Act(s, s.tasks[i], accessible);
    assert TaskOk(s, s.tasks[i]);
    if s.tasks[i] == ExecuteSpawn(id) {
      assert WillZero(e.spawned[0], id);
    }
    StillZeroed(s.tasks, i, e.task, e.spawned, id);
  }

  lemma ClearIsZero(s: State, id: int)
    requires RunInv(s) && id in s.table && s.table[id].isRunning
    ensures SomeWillZero(s.tasks, id)
  {
    var k :| 0 <= k < |s.tasks| && WillClear(s.tasks[k], id);
    assert WillZero(s.tasks[k], id);
  }

  lemma CallExplains(s: State, task: Task, id: int, overlapped: bool)
    requires IsCall(task) && Explains(s, id, overlapped)
    ensures Explains(Apply(s, Call(task)), id, overlapped)
  {
    var s' := Apply(s, Call(task));
    assert forall k :: 0 <= k < |s.tasks| ==> s'.tasks[k] == s.tasks[k];
    assert PastTest(s', id) <==> PastTest(s, id);
    if SomeWillZero(s.tasks, id) {
      var k :| 0 <= k < |s.tasks| && WillZero(s.tasks[k], id);
      assert WillZero(s'.tasks[k], id);
    }
  }

  lemma TestExplains(s: State, i: nat, accessible: bool, id: int, overlapped: bool)
    requires Inv(s) && i < |s.tasks| && s.tasks[i] == TerminateFound(id) && Explains(s, id, overlapped)
    ensures Explains(Apply(s, Advance(i, accessible)), id, overlapped)
  {
    assert TaskOk(s, s.tasks[i]);
    if PastTest(s, id) {
      PastTestStays(s, i, accessible, id);
    }
    if s.table[id].isRunning {
      ClearIsZero(s, id);
    } else if PastTest(Apply(s, Advance(i, accessible)), id) {
      var s' := Apply(s, Advance(i, accessible));
      var k :| 0 <= k < |s'.tasks| && IsPastTest(s'.tasks[k], id);
      assert IsPastTest(s.tasks[k], id);
    }
    if SomeWillZero(s.tasks, id) {
      WillZeroStays(s, i, accessible, id);
    }
  }

  lemma StoreExplains(s: State, i: nat, accessible: bool, id: int, overlapped: bool)
    requires Inv(s) && i < |s.tasks| && s.tasks[i] == TerminateStopped(id) && Explains(s, id, overlapped)
    ensures Explains(Apply(s, Advance(i, accessible)), id, overlapped)
  {
    assert TaskOk(s, s.tasks[i]);
    assert IsPastTest(s.tasks[i], id);
    if SomeWillZero(s.tasks, id) {
      WillZeroStays(s, i, accessible, id);
    }
  }

  lemma ZeroExplains(s: State, i: nat, accessible: bool, id: int)
    requires Inv(s) && i < |s.tasks| && s.tasks[i] == FireCleared(id)
    ensures Explains(Apply(s, Advance(i, accessible)), id, PastTest(s, id))
  {
    assert TaskOk(s, s.tasks[i]);
    if PastTest(s, id) {
      PastTestStays(s, i, accessible, id);
    }
    if PastTest(Apply(s, Advance(i, accessible)), id) {
      PastTestIsOld(s, i, accessible, id);
    }
  }

  lemma ExitCodeStays(s: State, i: nat, accessible: bool, id: int)
    requires IdInv(s) && i < |s.tasks| && !IsDone(s.tasks[i])
    requires s.tasks[i] != TerminateStopped(id) && s.tasks[i] != FireCleared(id)
    ensures var s' := Apply(s, Advance(i, accessible));
            id in s'.table && s'.table[id].exitCode == -1 <==> id in s.table && s.table[id].exitCode == -1
    ensures id in s.table ==> id in Apply(s, Advance(i, accessible)).table
  {
    assert TaskOk(s, s.tasks[i]);
  }

  lemma OtherExplains(s: State, i: nat, accessible: bool, id: int, overlapped: bool)
    requires Inv(s) && i < |s.tasks| && !IsDone(s.tasks[i]) && Explains(s, id, overlapped)
    requires s.tasks[i] !in {TerminateFound(id), TerminateStopped(id), FireCleared(id)}
    ensures Explains(Apply(s, Advance(i, accessible)), id, overlapped)
  {
    ExitCodeStays(s, i, accessible, id);
    if PastTest(s, id) {
      PastTestStays(s, i, accessible, id);
    }
    if PastTest(Apply(s, Advance(i, accessible)), id) {
      PastTestIsOld(s, i, accessible, id);
      PastTestIsInTable(s, id);
    }
    if SomeWillZero(s.tasks, id) {
      WillZeroStays(s, i, accessible, id);
    }
  }

  lemma StepExplains(s: State, step: Step, id: int, overlapped: bool)
    requires Inv(s) && Enabled(s, step) && Explains(s, id, overlapped)
    ensures Explains(Apply(s, step), id, NowOverlapped(s, step, id, overlapped))
  {
    match step
    case Call(task) => CallExplains(s, task, id, overlapped);
    case Advance(i, accessible) =>
      if s.tasks[i] == TerminateFound(id) {
        TestExplains(s, i, accessible, id, overlapped);
      } else if s.tasks[i] == TerminateStopped(id) {
        StoreExplains(s, i, accessible, id, overlapped);
      } else if s.tasks[i] == FireCleared(id) {
        ZeroExplains(s, i, accessible, id);
      } else {
        OtherExplains(s, i, accessible, id, overlapped);
      }
  }

  lemma {:induction false} RunExplains(steps: seq<Step>, id: int)
    requires ValidRun(steps)
    ensures Explains(After(steps), id, Overlapped(steps, id))
    decreases |steps|
  {
    if steps != [] {
      var n := |steps| - 1;
      RunExplains(steps[..n], id);
      RunKeepsInv(steps[..n]);
      OverlapAfterStep(steps, id);
      StepExplains(After(steps[..n]), steps[n], id, Overlapped(steps[..n], id));
    }
  }

  lemma QuietStopping(s: State, id: int)
    requires Quiet(s)
    ensures !PastTest(s, id)
  {
  }

  /** When every call has returned and every completion has fired, nothing is running, and an exit
      code is -1 exactly if a terminateProcess was between its test and its store when the last
      completion of that process stored 0. */
  lemma AtRest(steps: seq<Step>, id: int)
    requires ValidRun(steps) && Quiet(After(steps)) && id in After(steps).table
    ensures var s := After(steps);
            && !s.table[id].isRunning
            && s.table[id].exitCode == if Overlapped(steps, id) then -1 else 0
  {
    var s := After(steps);
    RunKeepsInv(steps);
    RunExplains(steps, id);
    NothingPending(s, id);
    QuietStopping(s, id);
    assert EntryOk(s, id);
  }

  /** The id that a terminateProcess under way is about. */
  predicate Terminates(task: Task, id: int) {
    task in {TerminateCall(id), TerminateFound(id), TerminateStop(id), TerminateStopped(id)}
  }

  ghost predicate NoneInFlight(s: State, id: int) {
    forall i :: 0 <= i < |s.tasks| ==> !Terminates(s.tasks[i], id)
  }

  lemma NoneIsPastTest(s: State, id: int)
    requires NoneInFlight(s, id)
    ensures !PastTest(s, id)
  {
    assert forall i :: 0 <= i < |s.tasks| && IsPastTest(s.tasks[i], id) ==> Terminates(s.tasks[i], id);
  }

  /** What a caller can do about it: if no terminateProcess of the process is under way when its
      last completion stores 0, the process ends with exit code 0. */
  lemma TimelyTerminate(steps: seq<Step>, id: int)
    requires ValidRun(steps) && Quiet(After(steps)) && id in After(steps).table
    requires forall p: nat :: LastStoresZero(steps, p, id) ==> NoneInFlight(AfterFirst(steps, p), id)
    ensures After(steps).table[id].exitCode == 0
  {
    AtRest(steps, id);
    forall p: nat | LastStoresZero(steps, p, id)
      ensures !PastTest(AfterFirst(steps, p), id)
    {
      NoneIsPastTest(AfterFirst(steps, p), id);
    }
  }

  // ---------------------------------------------------------------------------------------------
  // A schedule: a terminateProcess that overlaps with a completion

  /** No entry is marked running with exit code -1. */
  ghost predicate Apart(s: State) {
    forall id :: id in s.table ==> !(s.table[id].isRunning && s.table[id].exitCode == -1)
  }

  ghost predicate AlwaysApart(steps: seq<Step>)
    requires ValidRun(steps)
    decreases |steps|
  {
    Apart(After(steps)) && (steps != [] ==> AlwaysApart(steps[..|steps| - 1]))
  }

  /** Some run, all of whose states are Apart, leads to s. */
  ghost predicate Reached(s: State) {
    exists steps :: ValidRun(steps) && After(steps) == s && AlwaysApart(steps)
  }

  lemma ReachedInit()
    ensures Reached(INIT)
  {
    assert ValidRun([]) && After([]) == INIT && AlwaysApart([]);
  }

  lemma Go(s: State, step: Step, s': State)
    requires Reached(s) && Enabled(s, step) && Apply(s, step) == s' && Apart(s')
    ensures Reached(s')
  {
    var steps :| ValidRun(steps) && After(steps) == s && AlwaysApart(steps);
    var more := steps + [step];
    assert more[..|more| - 1] == steps && more[|more| - 1] == step;
    assert ValidRun(more);
    assert After(more) == s';
    assert AlwaysApart(more);
  }

  lemma LsIsValid()
    ensures IsValidCommand("ls") && CheckExecutable("ls", true) == Success
  {
    assert "ls"[0] == 'l' && "ls"[1] == 's';
  }

  const OVER := Finished(Success)

  function Ls(running: bool, code: int): Table {
    map[1001 := ProcessInfo(1001, "ls", running, code)]
  }

  /** One process, and the tasks about it so far. */
  function Scene(running: bool, code: int, tasks: seq<Task>): State {
    State(1001, Ls(running, code), tasks)
  }

  lemma LsWrites(running: bool, code: int, running': bool, code': int)
    ensures SetRunning(Ls(running, code), 1001, running') == Ls(running', code)
    ensures SetExitCode(Ls(running, code), 1001, code') == Ls(running, code')
  {
  }

  /** Task i moves on to task. */
  lemma Move(running: bool, code: int, tasks: seq<Task>, i: nat, task: Task,
             running': bool, code': int, tasks': seq<Task>)
    requires Reached(Scene(running, code, tasks)) && i < |tasks| && !IsDone(tasks[i])
    requires Act(Scene(running, code, tasks), tasks[i], true) == Effect(task, [], 1001, Ls(running', code'))
    requires !(running' && code' == -1) && tasks' == tasks[i := task]
    ensures Reached(Scene(running', code', tasks'))
  {
    assert tasks[i := task] + [] == tasks';
    Go(Scene(running, code, tasks), Advance(i, true), Scene(running', code', tasks'));
  }

  lemma Begin(running: bool, code: int, tasks: seq<Task>, call: Task)
    requires Reached(Scene(running, code, tasks)) && IsCall(call)
    ensures Reached(Scene(running, code, tasks + [call]))
  {
    Go(Scene(running, code, tasks), Call(call), Scene(running, code, tasks + [call]));
  }

  lemma LsIsIssued()
    ensures Reached(State(1001, map[], [CreateIssued(1001, "ls")]))
  {
    LsIsValid();
    ReachedInit();
    var a := State(1000, map[], [CreateCall("ls")]);
    Go(INIT, Call(CreateCall("ls")), a);
    Go(a, Advance(0, true), State(1001, map[], [CreateIssued(1001, "ls")]));
  }

  lemma CreateIsApplied(s: State)
    requires s == State(1001, map[], [CreateIssued(1001, "ls")])
    ensures Apply(s, Advance(0, true)) == Scene(false, 0, [OVER])
  {
    LsIsValid();
    assert s.tasks[0 := OVER] + [] == [OVER];
  }

  lemma LsIsCreated()
    ensures Reached(Scene(false, 0, [OVER]))
  {
    LsIsIssued();
    var s := State(1001, map[], [CreateIssued(1001, "ls")]);
    CreateIsApplied(s);
    Go(s, Advance(0, true), Scene(false, 0, [OVER]));
  }

  lemma LsIsMarked()
    ensures Reached(Scene(true, 0, [OVER, ExecuteSpawn(1001)]))
  {
    LsIsCreated();
    LsWrites(false, 0, true, 0);
    Begin(false, 0, [OVER], ExecuteCall(1001));
    Move(false, 0, [OVER, ExecuteCall(1001)], 1, ExecuteFound(1001), false, 0, [OVER, ExecuteFound(1001)]);
    Move(false, 0, [OVER, ExecuteFound(1001)], 1, ExecuteMark(1001), false, 0, [OVER, ExecuteMark(1001)]);
    Move(false, 0, [OVER, ExecuteMark(1001)], 1, ExecuteSpawn(1001), true, 0, [OVER, ExecuteSpawn(1001)]);
  }

  lemma LsRuns()
    ensures Reached(Scene(true, 0, [OVER, OVER, Sleeping(1001)]))
  {
    LsIsMarked();
    var tasks := [OVER, ExecuteSpawn(1001)];
    assert tasks[1 := OVER] + [Sleeping(1001)] == [OVER, OVER, Sleeping(1001)];
    Go(Scene(true, 0, tasks), Advance(1, true), Scene(true, 0, [OVER, OVER, Sleeping(1001)]));
  }

  lemma TerminateSeesLsRunning()
    ensures Reached(Scene(true, 0, [OVER, OVER, Sleeping(1001), TerminateStop(1001)]))
  {
    LsRuns();
    var a := [OVER, OVER, Sleeping(1001), TerminateCall(1001)];
    var b := [OVER, OVER, Sleeping(1001), TerminateFound(1001)];
    Begin(true, 0, [OVER, OVER, Sleeping(1001)], TerminateCall(1001));
    Move(true, 0, a, 3, TerminateFound(1001), true, 0, b);
    Move(true, 0, b, 3, TerminateStop(1001), true, 0, [OVER, OVER, Sleeping(1001), TerminateStop(1001)]);
  }

  lemma LsWakesUp()
    ensures Reached(Scene(false, 0, [OVER, OVER, FireCleared(1001), TerminateStop(1001)]))
  {
    TerminateSeesLsRunning();
    LsWrites(true, 0, false, 0);
    var a := [OVER, OVER, Sleeping(1001), TerminateStop(1001)];
    var b := [OVER, OVER, FireFound(1001), TerminateStop(1001)];
    Move(true, 0, a, 2, FireFound(1001), true, 0, b);
    Move(true, 0, b, 2, FireCleared(1001), false, 0, [OVER, OVER, FireCleared(1001), TerminateStop(1001)]);
  }

  lemma LsCompletes()
    ensures Reached(Scene(false, 0, [OVER, OVER, Fired, TerminateStop(1001)]))
  {
    LsWakesUp();
    LsWrites(false, 0, false, 0);
    var a := [OVER, OVER, FireCleared(1001), TerminateStop(1001)];
    Move(false, 0, a, 2, Fired, false, 0, [OVER, OVER, Fired, TerminateStop(1001)]);
  }

  lemma TerminateStoresLast()
    ensures Reached(Scene(false, -1, [OVER, OVER, Fired, OVER]))
  {
    LsCompletes();
    LsWrites(false, 0, false, 0);
    LsWrites(false, 0, false, -1);
    var a := [OVER, OVER, Fired, TerminateStop(1001)];
    var b := [OVER, OVER, Fired, TerminateStopped(1001)];
    Move(false, 0, a, 3, TerminateStopped(1001), false, 0, b);
    Move(false, 0, b, 3, OVER, false, -1, [OVER, OVER, Fired, OVER]);
  }

  /** Calls can come to rest with an exit code of -1: a terminateProcess that has seen the process
      running may store its -1 after the last completion has fired. */
  lemma LateTerminate()
    ensures exists steps :: ValidRun(steps) && Quiet(After(steps))
                            && 1001 in After(steps).table && After(steps).table[1001].exitCode == -1
  {
    TerminateStoresLast();
    assert Quiet(Scene(false, -1, [OVER, OVER, Fired, OVER]));
  }
}
