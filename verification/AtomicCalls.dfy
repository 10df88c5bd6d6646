/**
  The process table when nothing interrupts a call or a completion: each then is one step, whose
  effect is the sum of its shared accesses.
*/
module AtomicCalls {
  import opened ProcessTable
  import opened ExitCodes

  ghost function Next(s: GoodState, i: nat, accessible: bool): (s': GoodState)
    requires i < |s.tasks| && !IsDone(s.tasks[i])
    ensures s' == Apply(s, Advance(i, accessible))
    ensures i < |s'.tasks| && Left(s'.tasks[i]) < Left(s.tasks[i])
  {
    StepKeepsInv(s, Advance(i, accessible));
    Apply(s, Advance(i, accessible))
  }

  /** Runs task i to its end without interruption. */
  ghost function Finish(s: GoodState, i: nat, accessible: bool): GoodState
    requires i < |s.tasks|
    decreases Left(s.tasks[i])
  {
    if IsDone(s.tasks[i]) then s else Finish(Next(s, i, accessible), i, accessible)
  }

  /** The environment's moves when call bodies are atomic. */
  datatype AtomicStep = AtomicCall(call: Task, accessible: bool) | AtomicFire(index: nat)

  predicate AtomicEnabled(s: State, step: AtomicStep) {
    match step
    case AtomicCall(task, _) => IsCall(task)
    case AtomicFire(i) => i < |s.tasks| && s.tasks[i].Sleeping?
  }

  ghost function Started(s: GoodState, task: Task): (s': GoodState)
    requires IsCall(task)
    ensures s' == s.(tasks := s.tasks + [task])
  {
    StepKeepsInv(s, Call(task));
    Apply(s, Call(task))
  }

  ghost function AtomicApply(s: GoodState, step: AtomicStep): GoodState
    requires AtomicEnabled(s, step)
  {
    match step
    case AtomicCall(task, accessible) => Finish(Started(s, task), |s.tasks|, accessible)
    case AtomicFire(i) => Finish(s, i, true)
  }

  // ---------------------------------------------------------------------------------------------
  // The invariant of atomic runs

  ghost predicate CodesPending(s: State) {
    forall id :: id in s.table && s.table[id].exitCode == -1 ==> SomeWillZero(s.tasks, id)
  }

  /** Between atomic moves, tasks are over or asleep, and an exit code of -1 will be overwritten. */
  ghost predicate AtomicInv(s: State) {
    && CodesPending(s)
    && forall i :: 0 <= i < |s.tasks| ==> IsDone(s.tasks[i]) || s.tasks[i].Sleeping?
  }

  /** While one task runs alone, the others are over or asleep; if it is a terminate call that has
      seen the process running, a completion is asleep. */
  ghost predicate Alone(s: State, i: nat) {
    && CodesPending(s) && i < |s.tasks|
    && (forall k :: 0 <= k < |s.tasks| && k != i ==> IsDone(s.tasks[k]) || s.tasks[k].Sleeping?)
    && (s.tasks[i].TerminateStop? || s.tasks[i].TerminateStopped? ==> SomeWillZero(s.tasks, s.tasks[i].id))
  }

  lemma CodesStayPending(s: GoodState, i: nat, accessible: bool)
    requires Alone(s, i) && !IsDone(s.tasks[i])
    ensures CodesPending(Apply(s, Advance(i, accessible)))
  {
    var s' := Apply(s, Advance(i, accessible));
    assert TaskOk(s, s.tasks[i]);
    forall id | id in s'.table && s'.table[id].exitCode == -1
      ensures SomeWillZero(s'.tasks, id)
    {
      assert s.tasks[i] != FireCleared(id);
      if s.tasks[i] != TerminateStopped(id) {
        ExitCodeStays(s, i, accessible, id);
      }
      WillZeroStays(s, i, accessible, id);
    }
  }

  lemma AloneStep(s: GoodState, i: nat, accessible: bool)
    requires Alone(s, i) && !IsDone(s.tasks[i])
    ensures Alone(Next(s, i, accessible), i)
  {
    var s' := Next(s, i, accessible);
    CodesStayPending(s, i, accessible);
    if s'.tasks[i].TerminateStop? || s'.tasks[i].TerminateStopped? {
      var id := s.tasks[i].id;
      if s'.tasks[i].TerminateStop? {
        ClearIsZero(s, id);
      }
      WillZeroStays(s, i, accessible, id);
    }
  }

  lemma {:induction false} FinishAlone(s: GoodState, i: nat, accessible: bool)
    requires Alone(s, i)
    ensures AtomicInv(Finish(s, i, accessible))
    decreases Left(s.tasks[i])
  {
    if !IsDone(s.tasks[i]) {
      AloneStep(s, i, accessible);
      FinishAlone(Next(s, i, accessible), i, accessible);
    }
  }

  lemma StartedAlone(s: GoodState, task: Task)
    requires AtomicInv(s) && IsCall(task)
    ensures Alone(Started(s, task), |s.tasks|)
  {
    var s' := Started(s, task);
    forall id | id in s'.table && s'.table[id].exitCode == -1
      ensures SomeWillZero(s'.tasks, id)
    {
      var k :| 0 <= k < |s.tasks| && WillZero(s.tasks[k], id);
      assert WillZero(s'.tasks[k], id);
    }
  }

  lemma AtomicStepKeepsInv(s: GoodState, step: AtomicStep)
    requires AtomicInv(s) && AtomicEnabled(s, step)
    ensures AtomicInv(AtomicApply(s, step))
  {
    match step
    case AtomicCall(task, accessible) =>
      StartedAlone(s, task);
      FinishAlone(Started(s, task), |s.tasks|, accessible);
    case AtomicFire(i) => FinishAlone(s, i, true);
  }

  // ---------------------------------------------------------------------------------------------
  // Every atomic run

  ghost predicate ValidAtomicRun(steps: seq<AtomicStep>)
    decreases |steps|, 0
  {
    var n := |steps| - 1;
    steps == [] || (ValidAtomicRun(steps[..n]) && AtomicEnabled(AfterAtomic(steps[..n]), steps[n]))
  }

  ghost function AfterAtomic(steps: seq<AtomicStep>): GoodState
    requires ValidAtomicRun(steps)
    decreases |steps|, 1
  {
    var n := |steps| - 1;
    if steps == [] then INIT else AtomicApply(AfterAtomic(steps[..n]), steps[n])
  }

  lemma {:induction false} AtomicRunKeepsInv(steps: seq<AtomicStep>)
    requires ValidAtomicRun(steps)
    ensures AtomicInv(AfterAtomic(steps))
    decreases |steps|
  {
    if steps != [] {
      var n := |steps| - 1;
      AtomicRunKeepsInv(steps[..n]);
      AtomicStepKeepsInv(AfterAtomic(steps[..n]), steps[n]);
    }
  }

  lemma OneMore(steps: seq<AtomicStep>, step: AtomicStep)
    requires ValidAtomicRun(steps) && AtomicEnabled(AfterAtomic(steps), step)
    ensures ValidAtomicRun(steps + [step]) && (steps + [step])[..|steps + [step]| - 1] == steps
    ensures AfterAtomic(steps + [step]) == AtomicApply(AfterAtomic(steps), step)
  {
    var more := steps + [step];
    assert more[..|more| - 1] == steps && more[|more| - 1] == step;
  }

  lemma ZeroedBySleeping(tasks: seq<Task>, id: int)
    requires SomeWillZero(tasks, id)
    requires forall i :: 0 <= i < |tasks| ==> IsDone(tasks[i]) || tasks[i].Sleeping?
    ensures Sleeping(id) in tasks
  {
    var i :| 0 <= i < |tasks| && WillZero(tasks[i], id);
    assert tasks[i] == Sleeping(id);
  }

  lemma GoodHasCompletion(s: GoodState, id: int)
    requires AtomicInv(s) && id in s.table && (s.table[id].isRunning || s.table[id].exitCode == -1)
    ensures Sleeping(id) in s.tasks
  {
    if s.table[id].isRunning {
      ClearIsZero(s, id);
    }
    ZeroedBySleeping(s.tasks, id);
  }

  /** With call bodies atomic, running and exit code -1 both imply an unfired completion. */
  lemma AtomicExitCodes(steps: seq<AtomicStep>, id: int)
    requires ValidAtomicRun(steps)
    requires var s := AfterAtomic(steps); id in s.table && (s.table[id].isRunning || s.table[id].exitCode == -1)
    ensures Sleeping(id) in AfterAtomic(steps).tasks
  {
    AtomicRunKeepsInv(steps);
    GoodHasCompletion(AfterAtomic(steps), id);
  }

  lemma QuietIsIdle(s: GoodState, id: int)
    requires AtomicInv(s) && Quiet(s) && id in s.table
    ensures !s.table[id].isRunning && s.table[id].exitCode == 0
  {
    assert EntryOk(s, id);
    NothingPending(s, id);
  }

  /** After any atomic run in which every completion has fired, nothing is running and every exit
      code is 0. */
  lemma AtomicRunAtRest(steps: seq<AtomicStep>, id: int)
    requires ValidAtomicRun(steps) && Quiet(AfterAtomic(steps)) && id in AfterAtomic(steps).table
    ensures !AfterAtomic(steps).table[id].isRunning
    ensures AfterAtomic(steps).table[id].exitCode == 0
  {
    AtomicRunKeepsInv(steps);
    QuietIsIdle(AfterAtomic(steps), id);
  }

  // ---------------------------------------------------------------------------------------------
  // What the accesses of an uninterrupted task add up to

  /** Finish without its typing. */
  function RunOut(s: State, i: nat, accessible: bool): State
    requires i < |s.tasks|
    decreases Left(s.tasks[i])
  {
    if IsDone(s.tasks[i]) then s
    else
      var s' := Apply(s, Advance(i, accessible));
      assert Left(s'.tasks[i]) < Left(s.tasks[i]);
      RunOut(s', i, accessible)
  }

  lemma {:induction false} FinishIsRunOut(s: GoodState, i: nat, accessible: bool)
    requires i < |s.tasks|
    ensures Finish(s, i, accessible) == RunOut(s, i, accessible)
    decreases Left(s.tasks[i])
  {
    if !IsDone(s.tasks[i]) {
      FinishIsRunOut(Next(s, i, accessible), i, accessible);
    }
  }

  lemma RunOutStep(s: State, i: nat, accessible: bool, s': State)
    requires i < |s.tasks| && !IsDone(s.tasks[i])
    requires s' == Apply(s, Advance(i, accessible))
    ensures RunOut(s, i, accessible) == RunOut(s', i, accessible)
  {
  }

  /** The state in which a call has been made, run to its end. */
  function RunCall(s: State, call: Task, accessible: bool): State {
    RunOut(s.(tasks := s.tasks + [call]), |s.tasks|, accessible)
  }

  function CreateResult(command: string, accessible: bool): SystemError {
    if IsValidCommand(command) then CheckExecutable(command, accessible) else InvalidCommand
  }

  /** A valid command consumes an id, even if it is then refused. */
  function NextId(next: int, command: string): int {
    if IsValidCommand(command) then next + 1 else next
  }

  function Created(table: Table, next: int, command: string, accessible: bool): Table {
    if CreateResult(command, accessible) == Success
    then table[next + 1 := ProcessInfo(next + 1, command, false, 0)] else table
  }

  function Terminated(table: Table, id: int): Table {
    if id in table && table[id].isRunning then table[id := table[id].(isRunning := false, exitCode := -1)] else table
  }

  function Completed(table: Table, id: int): Table {
    if id in table then table[id := table[id].(isRunning := false, exitCode := 0)] else table
  }

  /** A command is created exactly if it is admissible, holds a word and can be executed; an admissible
      one uses up an id in any case. */
  lemma CreateOutcome(table: Table, next: int, command: string, accessible: bool)
    ensures CreateResult(command, accessible) == Success <==> IsValidCommand(command) && HasWord(command) && accessible
    ensures CreateResult(command, accessible) == ExecutionFailed <==>
            IsValidCommand(command) && HasWord(command) && !accessible
    ensures CreateResult(command, accessible) == InvalidCommand <==> !(IsValidCommand(command) && HasWord(command))
    ensures NextId(next, command) == next + if IsValidCommand(command) then 1 else 0
    ensures Created(table, next, command, accessible)
         == if IsValidCommand(command) && HasWord(command) && accessible
            then table[next + 1 := ProcessInfo(next + 1, command, false, 0)] else table
  {
  }

  /** What an uninterrupted createProcess does. */
  lemma CreateEffect(s: State, command: string, accessible: bool)
    ensures RunCall(s, CreateCall(command), accessible)
         == State(NextId(s.next, command), Created(s.table, s.next, command, accessible),
                  s.tasks + [Finished(CreateResult(command, accessible))])
    ensures CreateResult(command, accessible) == Success <==> IsValidCommand(command) && HasWord(command) && accessible
  {
    CreateOutcome(s.table, s.next, command, accessible);
    var i := |s.tasks|;
    var s0 := s.(tasks := s.tasks + [CreateCall(command)]);
    var end := State(NextId(s.next, command), Created(s.table, s.next, command, accessible),
                     s.tasks + [Finished(CreateResult(command, accessible))]);
    if IsValidCommand(command) {
      var s1 := s.(next := s.next + 1, tasks := s.tasks + [CreateIssued(s.next + 1, command)]);
      RunOutStep(s0, i, accessible, s1);
      RunOutStep(s1, i, accessible, end);
    } else {
      RunOutStep(s0, i, accessible, end);
    }
  }

  lemma DetachEffect(s: State, id: int)
    requires id in s.table && !s.table[id].isRunning
    ensures RunOut(s.(tasks := s.tasks + [ExecuteMark(id)]), |s.tasks|, true)
         == s.(tasks := s.tasks + [Finished(Success), Sleeping(id)], table := SetRunning(s.table, id, true))
  {
    var i := |s.tasks|;
    var s2 := s.(tasks := s.tasks + [ExecuteMark(id)]);
    var s3 := s.(tasks := s.tasks + [ExecuteSpawn(id)], table := SetRunning(s.table, id, true));
    RunOutStep(s2, i, true, s3);
    RunOutStep(s3, i, true, s3.(tasks := s.tasks + [Finished(Success), Sleeping(id)]));
  }

  /** What an uninterrupted executeProcess does. */
  lemma ExecuteEffect(s: State, id: int)
    ensures RunCall(s, ExecuteCall(id), true)
         == if id !in s.table then s.(tasks := s.tasks + [Finished(ProcessNotFound)])
            else if s.table[id].isRunning then s.(tasks := s.tasks + [Finished(Success)])
            else s.(tasks := s.tasks + [Finished(Success), Sleeping(id)], table := SetRunning(s.table, id, true))
  {
    var i := |s.tasks|;
    var s0 := s.(tasks := s.tasks + [ExecuteCall(id)]);
    if id !in s.table {
      RunOutStep(s0, i, true, s.(tasks := s.tasks + [Finished(ProcessNotFound)]));
    } else {
      var s1 := s.(tasks := s.tasks + [ExecuteFound(id)]);
      RunOutStep(s0, i, true, s1);
      if s.table[id].isRunning {
        RunOutStep(s1, i, true, s.(tasks := s.tasks + [Finished(Success)]));
      } else {
        RunOutStep(s1, i, true, s.(tasks := s.tasks + [ExecuteMark(id)]));
        DetachEffect(s, id);
      }
    }
  }

  lemma StopEffect(s: State, id: int)
    requires id in s.table && s.table[id].isRunning
    ensures RunOut(s.(tasks := s.tasks + [TerminateStop(id)]), |s.tasks|, true)
         == s.(tasks := s.tasks + [Finished(Success)], table := Terminated(s.table, id))
  {
    var i := |s.tasks|;
    var s2 := s.(tasks := s.tasks + [TerminateStop(id)]);
    var s3 := s.(tasks := s.tasks + [TerminateStopped(id)], table := SetRunning(s.table, id, false));
    RunOutStep(s2, i, true, s3);
    RunOutStep(s3, i, true, s.(tasks := s.tasks + [Finished(Success)], table := Terminated(s.table, id)));
  }

  /** What an uninterrupted terminateProcess does. */
  lemma TerminateEffect(s: State, id: int)
    ensures RunCall(s, TerminateCall(id), true)
         == if id !in s.table then s.(tasks := s.tasks + [Finished(ProcessNotFound)])
            else s.(tasks := s.tasks + [Finished(Success)], table := Terminated(s.table, id))
  {
    var i := |s.tasks|;
    var s0 := s.(tasks := s.tasks + [TerminateCall(id)]);
    if id !in s.table {
      RunOutStep(s0, i, true, s.(tasks := s.tasks + [Finished(ProcessNotFound)]));
    } else {
      var s1 := s.(tasks := s.tasks + [TerminateFound(id)]);
      RunOutStep(s0, i, true, s1);
      if !s.table[id].isRunning {
        RunOutStep(s1, i, true, s.(tasks := s.tasks + [Finished(Success)]));
      } else {
        RunOutStep(s1, i, true, s.(tasks := s.tasks + [TerminateStop(id)]));
        StopEffect(s, id);
      }
    }
  }

  /** What an uninterrupted getProcessInfo answers. */
  lemma InfoEffect(s: State, id: int)
    ensures RunCall(s, InfoCall(id), true)
         == s.(tasks := s.tasks + [if id in s.table then Answered(s.table[id]) else Finished(ProcessNotFound)])
  {
    var i := |s.tasks|;
    var s0 := s.(tasks := s.tasks + [InfoCall(id)]);
    if id !in s.table {
      RunOutStep(s0, i, true, s.(tasks := s.tasks + [Finished(ProcessNotFound)]));
    } else {
      var s1 := s.(tasks := s.tasks + [InfoFound(id)]);
      RunOutStep(s0, i, true, s1);
      var s2 := s.(tasks := s.tasks + [InfoRead(id, s.table[id].isRunning)]);
      RunOutStep(s1, i, true, s2);
      RunOutStep(s2, i, true, s.(tasks := s.tasks + [Answered(s.table[id])]));
    }
  }

  /** What a completion does when it is not interrupted. */
  lemma FireEffect(s: State, i: nat, id: int)
    requires i < |s.tasks| && s.tasks[i] == Sleeping(id) && id in s.table
    ensures RunOut(s, i, true) == s.(tasks := s.tasks[i := Fired], table := Completed(s.table, id))
  {
    var s1 := s.(tasks := s.tasks[i := FireFound(id)]);
    RunOutStep(s, i, true, s1);
    var s2 := s.(tasks := s.tasks[i := FireCleared(id)], table := SetRunning(s.table, id, false));
    RunOutStep(s1, i, true, s2);
    RunOutStep(s2, i, true, s.(tasks := s.tasks[i := Fired], table := Completed(s.table, id)));
  }

  function UninterruptedRun(s: State, step: AtomicStep): State
    requires AtomicEnabled(s, step)
  {
    match step
    case AtomicCall(call, accessible) => RunCall(s, call, accessible)
    case AtomicFire(i) => RunOut(s, i, true)
  }

  /** One atomic move is the uninterrupted run of its steps. */
  lemma AtomicIsRunOut(s: GoodState, step: AtomicStep)
    requires AtomicEnabled(s, step)
    ensures AtomicApply(s, step) == UninterruptedRun(s, step)
  {
    match step
    case AtomicCall(call, accessible) => FinishIsRunOut(Started(s, call), |s.tasks|, accessible);
    case AtomicFire(i) => FinishIsRunOut(s, i, true);
  }
}
