/**
  The API of system_lib.hpp as a class whose methods run one call at a time; between calls any
  detached completion may fire.  The class keeps in step with the machine of ProcessTable: each
  method is one atomic move of it, with the same result.
*/
module ProcessManagement {
  import opened Common
  import opened ProcessTable
  import opened AtomicCalls

  method FindPattern(s: string, pattern: string) returns (found: bool)
    ensures found <==> Contains(s, pattern)
  {
    var i := 0;
    while i + |pattern| <= |s|
      invariant i <= |s| + 1
      invariant forall j: nat :: j < i ==> !MatchesAt(s, pattern, j)
    {
      if s[i..i + |pattern|] == pattern {
        assert MatchesAt(s, pattern, i);
        return true;
      }
      i := i + 1;
    }
    return false;
  }

  /** isValidCommand: nonempty, and none of the dangerous patterns occurs anywhere in it. */
  method CheckCommand(command: string) returns (valid: bool)
    ensures valid <==> IsValidCommand(command)
  {
    if command == "" {
      return false;
    }
    for k := 0 to |DANGEROUS|
      invariant forall j :: 0 <= j < k ==> !Contains(command, DANGEROUS[j])
    {
      var found := FindPattern(command, DANGEROUS[k]);
      if found {
        return false;
      }
    }
    return true;
  }

  lemma SomePending(completions: multiset<int>)
    requires completions != multiset{}
    ensures exists id :: id in completions
  {
    assert (forall id :: id !in completions) ==> completions == multiset{};
  }

  lemma SomeLeft(ids: set<int>)
    requires ids != {}
    ensures exists id :: id in ids
  {
    assert (forall id :: id !in ids) ==> ids == {};
  }

  // ---------------------------------------------------------------------------------------------
  // What the class keeps of a machine state

  /** The ids of the completions that are asleep among the first k tasks. */
  function PendingFirst(tasks: seq<Task>, k: nat): multiset<int>
    requires k <= |tasks|
  {
    if k == 0 then multiset{} else PendingFirst(tasks, k - 1) + Asleep(tasks[k - 1])
  }

  function Pending(tasks: seq<Task>): multiset<int> {
    PendingFirst(tasks, |tasks|)
  }

  function Asleep(task: Task): multiset<int> {
    if task.Sleeping? then multiset{task.id} else multiset{}
  }

  ghost predicate Matches(s: State, next: int, table: Table, completions: multiset<int>) {
    s.next == next && s.table == table && Pending(s.tasks) == completions
  }

  lemma {:induction false} PendingOfPrefix(tasks: seq<Task>, tasks': seq<Task>, k: nat)
    requires k <= |tasks| && k <= |tasks'| && forall i :: 0 <= i < k ==> tasks'[i] == tasks[i]
    ensures PendingFirst(tasks', k) == PendingFirst(tasks, k)
  {
    if k > 0 {
      PendingOfPrefix(tasks, tasks', k - 1);
    }
  }

  lemma PendingAppend(tasks: seq<Task>, task: Task)
    ensures Pending(tasks + [task]) == Pending(tasks) + Asleep(task)
    ensures !task.Sleeping? ==> Pending(tasks + [task]) == Pending(tasks)
  {
    PendingOfPrefix(tasks, tasks + [task], |tasks|);
  }

  function CountAsleep(task: Task, id: int): nat {
    if task == Sleeping(id) then 1 else 0
  }

  lemma CountStep(tasks: seq<Task>, k: nat, id: int)
    requires 0 < k <= |tasks|
    ensures PendingFirst(tasks, k)[id] == PendingFirst(tasks, k - 1)[id] + CountAsleep(tasks[k - 1], id)
  {
  }

  lemma {:induction false} CountReplaced(tasks: seq<Task>, tasks': seq<Task>, i: nat, k: nat, id: int)
    requires i < k <= |tasks| == |tasks'| && forall j :: 0 <= j < |tasks| && j != i ==> tasks'[j] == tasks[j]
    ensures PendingFirst(tasks, k)[id] + CountAsleep(tasks'[i], id)
         == PendingFirst(tasks', k)[id] + CountAsleep(tasks[i], id)
  {
    CountStep(tasks, k, id);
    CountStep(tasks', k, id);
    if i < k - 1 {
      CountReplaced(tasks, tasks', i, k - 1, id);
    } else {
      PendingOfPrefix(tasks, tasks', i);
    }
  }

  lemma PendingReplaced(tasks: seq<Task>, i: nat, task: Task)
    requires i < |tasks| && tasks[i].Sleeping? && !task.Sleeping?
    ensures tasks[i].id in Pending(tasks)
    ensures Pending(tasks[i := task]) == Pending(tasks) - multiset{tasks[i].id}
  {
    forall id
      ensures Pending(tasks)[id] == Pending(tasks[i := task])[id] + if id == tasks[i].id then 1 else 0
    {
      CountReplaced(tasks, tasks[i := task], i, |tasks|, id);
      assert tasks[i] == Sleeping(tasks[i].id);
    }
  }

  lemma {:induction false} PendingSleeps(tasks: seq<Task>, k: nat, id: int)
    requires k <= |tasks| && id in PendingFirst(tasks, k)
    ensures exists i :: 0 <= i < k && tasks[i] == Sleeping(id)
  {
    if tasks[k - 1] != Sleeping(id) {
      PendingSleeps(tasks, k - 1, id);
    }
  }

  lemma NonePendingIsQuiet(s: GoodState)
    requires AtomicInv(s) && Pending(s.tasks) == multiset{}
    ensures Quiet(s)
  {
    forall i | 0 <= i < |s.tasks|
      ensures IsDone(s.tasks[i])
    {
      if s.tasks[i].Sleeping? {
        PendingReplaced(s.tasks, i, Fired);
        assert false;
      }
    }
  }

  // ---------------------------------------------------------------------------------------------
  // Atomic moves, as the class sees them

  /** The call was answered with that result. */
  ghost predicate Returned(s: State, s': State, result: SystemError) {
    |s.tasks| < |s'.tasks| && s'.tasks[|s.tasks|] == Finished(result)
  }

  /** The end of a call that starts no completion. */
  lemma EndMatches(s: State, next: int, table: Table, result: SystemError)
    ensures var s' := State(next, table, s.tasks + [Finished(result)]);
            Matches(s', next, table, Pending(s.tasks)) && Returned(s, s', result)
  {
    PendingAppend(s.tasks, Finished(result));
  }

  lemma EndSpawning(s: State, table: Table, id: int)
    ensures var s' := State(s.next, table, s.tasks + [Finished(Success), Sleeping(id)]);
            Matches(s', s.next, table, Pending(s.tasks) + multiset{id}) && Returned(s, s', Success)
  {
    var tasks := s.tasks + [Finished(Success)];
    PendingAppend(s.tasks, Finished(Success));
    PendingAppend(tasks, Sleeping(id));
    assert tasks + [Sleeping(id)] == s.tasks + [Finished(Success), Sleeping(id)];
  }

  /** Only an idle process gets another completion. */
  function Detached(completions: multiset<int>, table: Table, id: int): multiset<int> {
    if id in table && !table[id].isRunning then completions + multiset{id} else completions
  }

  function Found(table: Table, id: int): SystemError {
    if id in table then Success else ProcessNotFound
  }

  lemma RunningAlready(table: Table, id: int)
    requires id in table && table[id].isRunning
    ensures SetRunning(table, id, true) == table
  {
    assert table[id].(isRunning := true) == table[id];
  }

  lemma FireMatches(s: GoodState, i: nat, id: int)
    requires i < |s.tasks| && s.tasks[i] == Sleeping(id)
    ensures Matches(AtomicApply(s, AtomicFire(i)), s.next, Completed(s.table, id), Pending(s.tasks) - multiset{id})
  {
    assert TaskOk(s, s.tasks[i]);
    AtomicIsRunOut(s, AtomicFire(i));
    FireEffect(s, i, id);
    PendingReplaced(s.tasks, i, Fired);
  }

  lemma ClearedAndZeroed(table: Table, id: int)
    ensures SetExitCode(SetRunning(table, id, false), id, 0) == Completed(table, id)
  {
  }

  /** Atomic moves that lead to what the class keeps. */
  ghost predicate LeadsTo(history: seq<AtomicStep>, next: int, table: Table, completions: multiset<int>) {
    ValidAtomicRun(history) && Matches(AfterAtomic(history), next, table, completions)
  }

  /** The last move is a call that was answered with that result. */
  ghost predicate LastReturned(history: seq<AtomicStep>, result: SystemError) {
    && ValidAtomicRun(history) && history != []
    && Returned(AfterAtomic(history[..|history| - 1]), AfterAtomic(history), result)
  }

  lemma CreateLeadsTo(h: seq<AtomicStep>, next: int, table: Table, completions: multiset<int>,
                      command: string, accessible: bool)
    requires LeadsTo(h, next, table, completions)
    ensures next + 1 !in table
    ensures var h' := h + [AtomicCall(CreateCall(command), accessible)];
            && LeadsTo(h', NextId(next, command), Created(table, next, command, accessible), completions)
            && LastReturned(h', CreateResult(command, accessible))
  {
    var s := AfterAtomic(h);
    OneMore(h, AtomicCall(CreateCall(command), accessible));
    AtomicIsRunOut(s, AtomicCall(CreateCall(command), accessible));
    CreateEffect(s, command, accessible);
    EndMatches(s, NextId(next, command), Created(table, next, command, accessible), CreateResult(command, accessible));
    assert forall id :: id in table ==> EntryOk(s, id);
  }

  lemma ExecuteLeadsTo(h: seq<AtomicStep>, next: int, table: Table, completions: multiset<int>, id: int)
    requires LeadsTo(h, next, table, completions)
    ensures var h' := h + [AtomicCall(ExecuteCall(id), true)];
            && LastReturned(h', Found(table, id))
            && LeadsTo(h', next, SetRunning(table, id, true), Detached(completions, table, id))
  {
    var s := AfterAtomic(h);
    OneMore(h, AtomicCall(ExecuteCall(id), true));
    AtomicIsRunOut(s, AtomicCall(ExecuteCall(id), true));
    ExecuteEffect(s, id);
    if id in table && !table[id].isRunning {
      EndSpawning(s, SetRunning(table, id, true), id);
    } else {
      if id in table {
        RunningAlready(table, id);
      }
      EndMatches(s, next, table, Found(table, id));
    }
  }

  lemma TerminateLeadsTo(h: seq<AtomicStep>, next: int, table: Table, completions: multiset<int>, id: int)
    requires LeadsTo(h, next, table, completions)
    ensures var h' := h + [AtomicCall(TerminateCall(id), true)];
            && LastReturned(h', Found(table, id))
            && LeadsTo(h', next, Terminated(table, id), completions)
  {
    var s := AfterAtomic(h);
    OneMore(h, AtomicCall(TerminateCall(id), true));
    AtomicIsRunOut(s, AtomicCall(TerminateCall(id), true));
    TerminateEffect(s, id);
    EndMatches(s, next, Terminated(table, id), Found(table, id));
  }

  /** The completion that a firing of the process belongs to. */
  lemma FireLeadsTo(h: seq<AtomicStep>, next: int, table: Table, completions: multiset<int>, id: int) returns (i: nat)
    requires LeadsTo(h, next, table, completions) && id in completions
    ensures i < |AfterAtomic(h).tasks| && AfterAtomic(h).tasks[i] == Sleeping(id)
    ensures LeadsTo(h + [AtomicFire(i)], next, Completed(table, id), completions - multiset{id})
  {
    PendingSleeps(AfterAtomic(h).tasks, |AfterAtomic(h).tasks|, id);
    i :| i < |AfterAtomic(h).tasks| && AfterAtomic(h).tasks[i] == Sleeping(id);
    OneMore(h, AtomicFire(i));
    FireMatches(AfterAtomic(h), i, id);
  }

  lemma AllFired(h: seq<AtomicStep>, next: int, table: Table, id: int)
    requires LeadsTo(h, next, table, multiset{}) && id in table
    ensures !table[id].isRunning && table[id].exitCode == 0
  {
    AtomicRunKeepsInv(h);
    NonePendingIsQuiet(AfterAtomic(h));
    AtomicRunAtRest(h, id);
  }

  lemma EntriesAreFiled(h: seq<AtomicStep>, next: int, table: Table, completions: multiset<int>, id: int)
    requires LeadsTo(h, next, table, completions) && id in table
    ensures table[id].processId == id && IsValidCommand(table[id].command)
  {
    assert EntryOk(AfterAtomic(h), id);
  }

  lemma InfoIsMachine(h: seq<AtomicStep>, next: int, table: Table, completions: multiset<int>, id: int)
    requires LeadsTo(h, next, table, completions)
    ensures AtomicApply(AfterAtomic(h), AtomicCall(InfoCall(id), true)).tasks
         == AfterAtomic(h).tasks + [if id in table then Answered(table[id]) else Finished(ProcessNotFound)]
  {
    AtomicIsRunOut(AfterAtomic(h), AtomicCall(InfoCall(id), true));
    InfoEffect(AfterAtomic(h), id);
  }

  class ProcessManager {
    var nextProcessId: int
    var processes: Table
    var completions: multiset<int>  // the detached completions that have not fired
    ghost var history: seq<AtomicStep>

    /** The class has made the atomic moves in history, and is where they lead. */
    ghost predicate Valid()
      reads this
    {
      LeadsTo(history, nextProcessId, processes, completions)
    }

    constructor ()
      ensures Valid() && history == [] && processes == map[] && completions == multiset{}
      ensures nextProcessId == 1000
    {
      nextProcessId := FIRST_ID_BASE;
      processes := map[];
      completions := multiset{};
      history := [];
    }

    /** createProcess, after generateProcessId and before and after addProcess. */
    method CreateProcess(command: string, accessible: bool) returns (result: SystemError, processId: int)
      requires Valid()
      modifies this
      ensures Valid() && history == old(history) + [AtomicCall(CreateCall(command), accessible)]
      ensures LastReturned(history, result)
      ensures completions == old(completions)
      ensures result == Success <==> IsValidCommand(command) && HasWord(command) && accessible
      ensures result == ExecutionFailed <==> IsValidCommand(command) && HasWord(command) && !accessible
      ensures result == InvalidCommand <==> !(IsValidCommand(command) && HasWord(command))
      ensures nextProcessId == old(nextProcessId) + if IsValidCommand(command) then 1 else 0
      ensures IsValidCommand(command) ==> processId == nextProcessId && processId !in old(processes)
      ensures processes == if result == Success
                           then old(processes)[processId := ProcessInfo(processId, command, false, 0)]
                           else old(processes)
    {
      CreateOutcome(processes, nextProcessId, command, accessible);
      CreateLeadsTo(history, nextProcessId, processes, completions, command, accessible);
      history := history + [AtomicCall(CreateCall(command), accessible)];
      var valid := CheckCommand(command);
      if !valid {
        return InvalidCommand, 0;
      }
      nextProcessId := nextProcessId + 1;
      processId := nextProcessId;
      result := CheckExecutable(command, accessible);
      if result == Success {
        processes := processes[processId := ProcessInfo(processId, command, false, 0)];
      }
    }

    method ExecuteProcess(processId: int) returns (result: SystemError)
      requires Valid()
      modifies this
      ensures Valid() && history == old(history) + [AtomicCall(ExecuteCall(processId), true)]
      ensures LastReturned(history, result)
      ensures nextProcessId == old(nextProcessId)
      ensures result == if processId in old(processes) then Success else ProcessNotFound
      ensures processes == if processId in old(processes)
                           then old(processes)[processId := old(processes)[processId].(isRunning := true)]
                           else old(processes)
      ensures completions == if processId in old(processes) && !old(processes)[processId].isRunning
                             then old(completions) + multiset{processId} else old(completions)
    {
      ExecuteLeadsTo(history, nextProcessId, processes, completions, processId);
      history := history + [AtomicCall(ExecuteCall(processId), true)];
      if processId !in processes {
        return ProcessNotFound;
      }
      if processes[processId].isRunning {
        RunningAlready(processes, processId);
        return Success;
      }
      processes := SetRunning(processes, processId, true);
      completions := completions + multiset{processId};
      return Success;
    }

    method TerminateProcess(processId: int) returns (result: SystemError)
      requires Valid()
      modifies this
      ensures Valid() && history == old(history) + [AtomicCall(TerminateCall(processId), true)]
      ensures LastReturned(history, result)
      ensures nextProcessId == old(nextProcessId) && completions == old(completions)
      ensures result == if processId in old(processes) then Success else ProcessNotFound
      ensures processes == if processId in old(processes) && old(processes)[processId].isRunning
                           then old(processes)[processId :=
                                  old(processes)[processId].(isRunning := false, exitCode := -1)]
                           else old(processes)
    {
      TerminateLeadsTo(history, nextProcessId, processes, completions, processId);
      history := history + [AtomicCall(TerminateCall(processId), true)];
      if processId !in processes {
        return ProcessNotFound;
      }
      if !processes[processId].isRunning {
        return Success;
      }
      processes := SetRunning(processes, processId, false);
      processes := SetExitCode(processes, processId, -1);
      return Success;
    }

    /** A detached completion wakes up. */
    method FireCompletion(processId: int) returns (ghost i: nat)
      requires Valid() && processId in completions
      modifies this
      ensures Valid() && nextProcessId == old(nextProcessId)
      ensures history == old(history) + [AtomicFire(i)]
      ensures i < |AfterAtomic(old(history)).tasks| && AfterAtomic(old(history)).tasks[i] == Sleeping(processId)
      ensures processes == if processId in old(processes)
                           then old(processes)[processId :=
                                  old(processes)[processId].(isRunning := false, exitCode := 0)]
                           else old(processes)
      ensures completions == old(completions) - multiset{processId}
    {
      i := FireLeadsTo(history, nextProcessId, processes, completions, processId);
      ClearedAndZeroed(processes, processId);
      history := history + [AtomicFire(i)];
      processes := SetRunning(processes, processId, false);
      processes := SetExitCode(processes, processId, 0);
      completions := completions - multiset{processId};
    }

    /** When calls have stopped, the completions fire one after the other in any order, and leave
        nothing running and no exit code but 0. */
    method FireAll()
      requires Valid()
      modifies this
      ensures Valid() && completions == multiset{}
      ensures processes.Keys == old(processes).Keys
      ensures forall id :: id in processes ==> !processes[id].isRunning && processes[id].exitCode == 0
    {
      while completions != multiset{}
        invariant Valid() && processes.Keys == old(processes).Keys
        decreases |completions|
      {
        SomePending(completions);
        var processId :| processId in completions;
        ghost var i := FireCompletion(processId);
      }
      forall id | id in processes
        ensures !processes[id].isRunning && processes[id].exitCode == 0
      {
        AllFired(history, nextProcessId, processes, id);
      }
    }

    method GetProcessInfo(processId: int) returns (result: SystemError, info: Option<ProcessInfo>)
      requires Valid()
      ensures AtomicApply(AfterAtomic(history), AtomicCall(InfoCall(processId), true)).tasks
           == AfterAtomic(history).tasks + [if info.Some? then Answered(info.value) else Finished(result)]
      ensures processId in processes ==> result == Success && info == Some(processes[processId])
      ensures processId in processes ==> info.value.processId == processId && IsValidCommand(info.value.command)
      ensures processId !in processes ==> result == ProcessNotFound && info == None
    {
      InfoIsMachine(history, nextProcessId, processes, completions, processId);
      if processId !in processes {
        return ProcessNotFound, None;
      }
      EntriesAreFiled(history, nextProcessId, processes, completions, processId);
      return Success, Some(processes[processId]);
    }

    /** listProcesses: every entry once, in the map's own order. */
    method ListProcesses() returns (infos: seq<ProcessInfo>)
      requires Valid()
      ensures Lists(processes, infos)
    {
      forall id | id in processes
        ensures processes[id].processId == id
      {
        EntriesAreFiled(history, nextProcessId, processes, completions, id);
      }
      infos := GetAllProcesses(processes);
    }
  }

  ghost predicate Lists(table: Table, infos: seq<ProcessInfo>) {
    && |infos| == |table|
    && (forall id :: id in table ==> table[id] in infos)
    && (forall i :: 0 <= i < |infos| ==> infos[i].processId in table && table[infos[i].processId] == infos[i])
    && forall i, j :: 0 <= i < j < |infos| ==> infos[i].processId != infos[j].processId
  }

  method GetAllProcesses(table: Table) returns (infos: seq<ProcessInfo>)
    requires forall id :: id in table ==> table[id].processId == id
    ensures Lists(table, infos)
  {
    infos := [];
    var left := table.Keys;
    while left != {}
      invariant left <= table.Keys && |infos| + |left| == |table|
      invariant forall id :: id in table && id !in left ==> table[id] in infos
      invariant forall i :: 0 <= i < |infos| ==>
        infos[i].processId in table && infos[i].processId !in left && table[infos[i].processId] == infos[i]
      invariant forall i, j :: 0 <= i < j < |infos| ==> infos[i].processId != infos[j].processId
      decreases left
    {
      SomeLeft(left);
      var id :| id in left;
      infos := infos + [table[id]];
      left := left - {id};
    }
  }
}
