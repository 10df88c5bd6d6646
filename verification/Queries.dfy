/**
  What a query may answer when it overlaps with other calls: it copies the flag isRunning in one
  step and the exit code in a later one, so that other steps may come between.
*/
module Queries {
  import opened ProcessTable
  import opened ExitCodes

  // ---------------------------------------------------------------------------------------------
  // The states of a run, one step after the other

  lemma {:induction false} NextState(steps: seq<Step>, p: nat)
    requires ValidRun(steps) && p < |steps|
    ensures Inv(AfterFirst(steps, p)) && Enabled(AfterFirst(steps, p), steps[p])
    ensures AfterFirst(steps, p + 1) == Apply(AfterFirst(steps, p), steps[p])
    decreases |steps|
  {
    var n := |steps| - 1;
    if p < n {
      NextState(steps[..n], p);
    } else {
      RunKeepsInv(steps[..n]);
      assert AfterFirst(steps, n) == AfterFirst(steps[..n], n);
    }
  }

  ghost predicate InTable(steps: seq<Step>, m: nat, id: int)
    requires ValidRun(steps)
  {
    m <= |steps| && id in AfterFirst(steps, m).table
  }

  /** The entry after the first m steps. */
  ghost function EntryAt(steps: seq<Step>, m: nat, id: int): ProcessInfo
    requires ValidRun(steps) && InTable(steps, m, id)
  {
    AfterFirst(steps, m).table[id]
  }

  ghost function TaskAt(steps: seq<Step>, m: nat, i: nat): Task
    requires ValidRun(steps) && m <= |steps| && i < |AfterFirst(steps, m).tasks|
  {
    AfterFirst(steps, m).tasks[i]
  }

  lemma StepShrinksLeft(s: State, step: Step, i: nat)
    requires Enabled(s, step) && i < |s.tasks|
    ensures i < |Apply(s, step).tasks| && Left(Apply(s, step).tasks[i]) <= Left(s.tasks[i])
  {
  }

  /** Tasks only move forward. */
  lemma {:induction false} LeftShrinks(steps: seq<Step>, i: nat, a: nat, b: nat)
    requires ValidRun(steps) && a <= b <= |steps| && i < |AfterFirst(steps, a).tasks|
    ensures i < |AfterFirst(steps, b).tasks| && Left(TaskAt(steps, b, i)) <= Left(TaskAt(steps, a, i))
  {
    if a < b {
      LeftShrinks(steps, i, a, b - 1);
      NextState(steps, b - 1);
      StepShrinksLeft(AfterFirst(steps, b - 1), steps[b - 1], i);
    }
  }

  // ---------------------------------------------------------------------------------------------
  // The two reads of a query

  predicate Moves(s: State, step: Step, i: nat) {
    step.Advance? && step.index == i < |s.tasks|
  }

  /** Step p of the run is the one in which the query that is task i reads the flag. */
  ghost predicate ReadsFlag(steps: seq<Step>, i: nat, id: int, p: nat)
    requires ValidRun(steps)
  {
    p < |steps| && Moves(AfterFirst(steps, p), steps[p], i) && TaskAt(steps, p, i) == InfoFound(id)
  }

  /** Step q of the run is the one in which it reads the exit code. */
  ghost predicate ReadsCode(steps: seq<Step>, i: nat, id: int, q: nat)
    requires ValidRun(steps)
  {
    && q < |steps| && Moves(AfterFirst(steps, q), steps[q], i)
    && TaskAt(steps, q, i).InfoRead? && TaskAt(steps, q, i).id == id
  }

  ghost predicate Reads(steps: seq<Step>, i: nat, id: int, p: nat, q: nat)
    requires ValidRun(steps)
  {
    p < q && ReadsFlag(steps, i, id, p) && ReadsCode(steps, i, id, q)
  }

  /** The flag of the entry at p, and everything else of the entry at q. */
  ghost predicate IsMix(steps: seq<Step>, info: ProcessInfo, id: int, p: nat, q: nat)
    requires ValidRun(steps)
  {
    && InTable(steps, p, id) && InTable(steps, q, id) && info.processId == id
    && info == EntryAt(steps, q, id).(isRunning := EntryAt(steps, p, id).isRunning)
  }

  ghost predicate FlagIsRead(steps: seq<Step>, i: nat, id: int, running: bool, p: nat)
    requires ValidRun(steps)
  {
    ReadsFlag(steps, i, id, p) && InTable(steps, p, id) && EntryAt(steps, p, id).isRunning == running
  }

  ghost predicate AnswerIsRead(steps: seq<Step>, i: nat, info: ProcessInfo, p: nat, q: nat)
    requires ValidRun(steps)
  {
    Reads(steps, i, info.processId, p, q) && IsMix(steps, info, info.processId, p, q)
  }

  /** What task i holds has been read in its own steps. */
  ghost predicate HoldsRead(steps: seq<Step>, i: nat, task: Task)
    requires ValidRun(steps)
  {
    && (task.InfoRead? ==> exists p: nat :: FlagIsRead(steps, i, task.id, task.running, p))
    && (task.Answered? ==> exists p: nat, q: nat :: AnswerIsRead(steps, i, task.info, p, q))
  }

  lemma SamePrefix(steps: seq<Step>, m: nat)
    requires ValidRun(steps) && m < |steps|
    ensures AfterFirst(steps, m) == AfterFirst(steps[..|steps| - 1], m)
  {
  }

  lemma PrefixFlagIsRead(steps: seq<Step>, i: nat, id: int, running: bool, p: nat)
    requires ValidRun(steps) && steps != [] && FlagIsRead(steps[..|steps| - 1], i, id, running, p)
    ensures FlagIsRead(steps, i, id, running, p)
  {
    SamePrefix(steps, p);
  }

  lemma PrefixAnswerIsRead(steps: seq<Step>, i: nat, info: ProcessInfo, p: nat, q: nat)
    requires ValidRun(steps) && steps != [] && AnswerIsRead(steps[..|steps| - 1], i, info, p, q)
    ensures AnswerIsRead(steps, i, info, p, q)
  {
    SamePrefix(steps, p);
    SamePrefix(steps, q);
  }

  lemma PrefixHoldsRead(steps: seq<Step>, i: nat, task: Task)
    requires ValidRun(steps) && steps != [] && HoldsRead(steps[..|steps| - 1], i, task)
    ensures HoldsRead(steps, i, task)
  {
    var front := steps[..|steps| - 1];
    if task.InfoRead? {
      var p: nat :| FlagIsRead(front, i, task.id, task.running, p);
      PrefixFlagIsRead(steps, i, task.id, task.running, p);
    } else if task.Answered? {
      var p: nat, q: nat :| AnswerIsRead(front, i, task.info, p, q);
      PrefixAnswerIsRead(steps, i, task.info, p, q);
    }
  }

  lemma FlagStep(s: State, step: Step, i: nat)
    requires IdInv(s) && Enabled(s, step) && Moves(s, step, i) && s.tasks[i].InfoFound?
    ensures var id := s.tasks[i].id;
            id in s.table && Apply(s, step).tasks[i] == InfoRead(id, s.table[id].isRunning)
  {
    assert TaskOk(s, s.tasks[i]);
  }

  lemma CodeStep(s: State, step: Step, i: nat)
    requires IdInv(s) && Enabled(s, step) && Moves(s, step, i) && s.tasks[i].InfoRead?
    ensures var id := s.tasks[i].id;
            && id in s.table && s.table[id].processId == id
            && Apply(s, step).tasks[i] == Answered(s.table[id].(isRunning := s.tasks[i].running))
  {
    assert TaskOk(s, s.tasks[i]);
    assert EntryOk(s, s.tasks[i].id);
  }

  lemma FlagRead(steps: seq<Step>, i: nat, id: int)
    requires ValidRun(steps) && steps != [] && ReadsFlag(steps, i, id, |steps| - 1)
    ensures HoldsRead(steps, i, After(steps).tasks[i])
  {
    var n := |steps| - 1;
    NextState(steps, n);
    FlagStep(AfterFirst(steps, n), steps[n], i);
    assert FlagIsRead(steps, i, id, EntryAt(steps, n, id).isRunning, n);
  }

  lemma CodeRead(steps: seq<Step>, i: nat, id: int, running: bool, p: nat)
    requires ValidRun(steps) && steps != [] && ReadsCode(steps, i, id, |steps| - 1) && p < |steps| - 1
    requires FlagIsRead(steps, i, id, running, p) && TaskAt(steps, |steps| - 1, i) == InfoRead(id, running)
    ensures HoldsRead(steps, i, After(steps).tasks[i])
  {
    var n := |steps| - 1;
    NextState(steps, n);
    CodeStep(AfterFirst(steps, n), steps[n], i);
    assert AnswerIsRead(steps, i, EntryAt(steps, n, id).(isRunning := running), p, n);
  }

  /** Any other step leaves what has been read alone. */
  lemma StepReads(s: State, step: Step, i: nat)
    requires Enabled(s, step) && i < |Apply(s, step).tasks|
    ensures var task := Apply(s, step).tasks[i];
            task.InfoRead? || task.Answered? ==>
              && i < |s.tasks|
              && (task == s.tasks[i] || (Moves(s, step, i) && (s.tasks[i].InfoFound? || s.tasks[i].InfoRead?)))
  {
  }

  lemma StepHoldsRead(steps: seq<Step>, i: nat)
    requires ValidRun(steps) && steps != [] && i < |After(steps[..|steps| - 1]).tasks|
    requires HoldsRead(steps[..|steps| - 1], i, After(steps[..|steps| - 1]).tasks[i])
    requires After(steps).tasks[i] != After(steps[..|steps| - 1]).tasks[i]
    requires Moves(After(steps[..|steps| - 1]), steps[|steps| - 1], i)
    requires var task := After(steps[..|steps| - 1]).tasks[i]; task.InfoFound? || task.InfoRead?
    ensures HoldsRead(steps, i, After(steps).tasks[i])
  {
    var n := |steps| - 1;
    var task := After(steps[..n]).tasks[i];
    SamePrefix(steps, n);
    if task.InfoFound? {
      FlagRead(steps, i, task.id);
    } else {
      var p: nat :| FlagIsRead(steps[..n], i, task.id, task.running, p);
      PrefixFlagIsRead(steps, i, task.id, task.running, p);
      CodeRead(steps, i, task.id, task.running, p);
    }
  }

  lemma {:induction false} RunHoldsRead(steps: seq<Step>, i: nat)
    requires ValidRun(steps) && i < |After(steps).tasks|
    ensures HoldsRead(steps, i, After(steps).tasks[i])
    decreases |steps|
  {
    var task := After(steps).tasks[i];
    if task.InfoRead? || task.Answered? {
      var n := |steps| - 1;
      StepReads(After(steps[..n]), steps[n], i);
      RunHoldsRead(steps[..n], i);
      if task == After(steps[..n]).tasks[i] {
        PrefixHoldsRead(steps, i, task);
      } else {
        StepHoldsRead(steps, i);
      }
    }
  }

  /** A query reads the flag once. */
  lemma OneFlagRead(steps: seq<Step>, i: nat, id: int, p: nat, id': int, p': nat)
    requires ValidRun(steps) && ReadsFlag(steps, i, id, p) && ReadsFlag(steps, i, id', p')
    ensures p >= p'
  {
    if p < p' {
      NextState(steps, p);
      LeftShrinks(steps, i, p + 1, p');
    }
  }

  /** A query reads the exit code once. */
  lemma OneCodeRead(steps: seq<Step>, i: nat, id: int, q: nat, id': int, q': nat)
    requires ValidRun(steps) && ReadsCode(steps, i, id, q) && ReadsCode(steps, i, id', q')
    ensures q >= q'
  {
    if q < q' {
      NextState(steps, q);
      LeftShrinks(steps, i, q + 1, q');
    }
  }

  ghost predicate IsAnswer(steps: seq<Step>, i: nat, info: ProcessInfo)
    requires ValidRun(steps)
  {
    i < |After(steps).tasks| && After(steps).tasks[i] == Answered(info)
  }

  /** Every answer comes from two reads of its own query. */
  lemma AnswerHasReads(steps: seq<Step>, i: nat, info: ProcessInfo)
    requires ValidRun(steps) && IsAnswer(steps, i, info)
    ensures exists p: nat, q: nat :: Reads(steps, i, info.processId, p, q)
  {
    RunHoldsRead(steps, i);
    var p: nat, q: nat :| AnswerIsRead(steps, i, info, p, q);
  }

  /** In every run the answer of a query is the entry at its second read with the flag that the entry
      had at its first. */
  lemma AnswerIsMix(steps: seq<Step>, i: nat, info: ProcessInfo, id: int, p: nat, q: nat)
    requires ValidRun(steps) && IsAnswer(steps, i, info) && Reads(steps, i, id, p, q)
    ensures IsMix(steps, info, id, p, q)
  {
    RunHoldsRead(steps, i);
    var p', q' :| AnswerIsRead(steps, i, info, p', q');
    OneFlagRead(steps, i, id, p, info.processId, p');
    OneFlagRead(steps, i, info.processId, p', id, p);
    OneCodeRead(steps, i, id, q, info.processId, q');
    OneCodeRead(steps, i, info.processId, q', id, q);
  }

  // ---------------------------------------------------------------------------------------------
  // What the steps between the reads do to the entry

  /** A call or completion stores that value into isRunning. */
  predicate StoresFlag(s: State, step: Step, id: int, running: bool) {
    && step.Advance? && step.index < |s.tasks|
    && if running then s.tasks[step.index] == ExecuteMark(id)
       else s.tasks[step.index] == FireFound(id) || s.tasks[step.index] == TerminateStop(id)
  }

  /** A completion or terminateProcess stores that value into exitCode. */
  predicate StoresCode(s: State, step: Step, id: int, code: int) {
    && step.Advance? && step.index < |s.tasks|
    && ((s.tasks[step.index] == FireCleared(id) && code == 0)
        || (s.tasks[step.index] == TerminateStopped(id) && code == -1))
  }

  ghost predicate FlagStored(steps: seq<Step>, a: nat, id: int)
    requires ValidRun(steps) && a < |steps|
  {
    StoresFlag(AfterFirst(steps, a), steps[a], id, true) || StoresFlag(AfterFirst(steps, a), steps[a], id, false)
  }

  ghost predicate CodeStored(steps: seq<Step>, b: nat, id: int)
    requires ValidRun(steps) && b < |steps|
  {
    StoresCode(AfterFirst(steps, b), steps[b], id, 0) || StoresCode(AfterFirst(steps, b), steps[b], id, -1)
  }

  /** What one step makes of an entry. */
  function Stored(s: State, step: Step, id: int): ProcessInfo
    requires id in s.table
  {
    var e := s.table[id];
    if StoresFlag(s, step, id, true) then e.(isRunning := true)
    else if StoresFlag(s, step, id, false) then e.(isRunning := false)
    else if StoresCode(s, step, id, 0) then e.(exitCode := 0)
    else if StoresCode(s, step, id, -1) then e.(exitCode := -1)
    else e
  }

  lemma StepStores(s: State, step: Step, id: int)
    requires Inv(s) && Enabled(s, step) && id in s.table
    ensures id in Apply(s, step).table && Apply(s, step).table[id] == Stored(s, step, id)
  {
    if step.Advance? {
      assert TaskOk(s, s.tasks[step.index]);
    }
  }

  lemma EntryStep(steps: seq<Step>, m: nat, id: int)
    requires ValidRun(steps) && m < |steps| && InTable(steps, m, id)
    ensures InTable(steps, m + 1, id)
    ensures EntryAt(steps, m + 1, id) == Stored(AfterFirst(steps, m), steps[m], id)
  {
    NextState(steps, m);
    StepStores(AfterFirst(steps, m), steps[m], id);
  }

  lemma {:induction false} EntryStays(steps: seq<Step>, p: nat, m: nat, id: int)
    requires ValidRun(steps) && p <= m <= |steps| && InTable(steps, p, id)
    ensures InTable(steps, m, id)
    ensures EntryAt(steps, m, id).processId == EntryAt(steps, p, id).processId
    ensures EntryAt(steps, m, id).command == EntryAt(steps, p, id).command
  {
    if p < m {
      EntryStays(steps, p, m - 1, id);
      EntryStep(steps, m - 1, id);
    }
  }

  /** A flag that differs has been stored in between. */
  lemma {:induction false} FlagChanges(steps: seq<Step>, p: nat, m: nat, id: int)
    requires ValidRun(steps) && p <= m <= |steps| && InTable(steps, p, id) && InTable(steps, m, id)
    requires EntryAt(steps, m, id).isRunning != EntryAt(steps, p, id).isRunning
    ensures exists a :: p <= a < m && FlagStored(steps, a, id)
  {
    EntryStays(steps, p, m - 1, id);
    EntryStep(steps, m - 1, id);
    if !FlagStored(steps, m - 1, id) {
      FlagChanges(steps, p, m - 1, id);
    }
  }

  lemma {:induction false} CodeChanges(steps: seq<Step>, p: nat, m: nat, id: int)
    requires ValidRun(steps) && p <= m <= |steps| && InTable(steps, p, id) && InTable(steps, m, id)
    requires EntryAt(steps, m, id).exitCode != EntryAt(steps, p, id).exitCode
    ensures exists b :: p <= b < m && CodeStored(steps, b, id)
  {
    EntryStays(steps, p, m - 1, id);
    EntryStep(steps, m - 1, id);
    if !CodeStored(steps, m - 1, id) {
      CodeChanges(steps, p, m - 1, id);
    }
  }

  // ---------------------------------------------------------------------------------------------
  // When an answer is the entry at some moment

  /** The entry shows that flag and that exit code after the first m steps. */
  ghost predicate Shows(steps: seq<Step>, m: nat, id: int, running: bool, code: int)
    requires ValidRun(steps)
  {
    InTable(steps, m, id) && EntryAt(steps, m, id).isRunning == running && EntryAt(steps, m, id).exitCode == code
  }

  /** No moment from p to q shows them. */
  ghost predicate NeverShows(steps: seq<Step>, p: nat, q: nat, id: int, running: bool, code: int)
    requires ValidRun(steps)
  {
    forall m: nat :: p <= m <= q ==> !Shows(steps, m, id, running, code)
  }

  ghost predicate BothStored(steps: seq<Step>, p: nat, q: nat, id: int)
    requires ValidRun(steps) && q <= |steps|
  {
    exists a: nat, b: nat :: p <= a < b < q && FlagStored(steps, a, id) && CodeStored(steps, b, id)
  }

  lemma {:induction false} UnseenMeansStores(steps: seq<Step>, p: nat, q: nat, id: int)
    requires ValidRun(steps) && p <= q <= |steps| && InTable(steps, p, id) && InTable(steps, q, id)
    requires NeverShows(steps, p, q, id, EntryAt(steps, p, id).isRunning, EntryAt(steps, q, id).exitCode)
    ensures BothStored(steps, p, q, id)
  {
    var running := EntryAt(steps, p, id).isRunning;
    assert !Shows(steps, p, id, running, EntryAt(steps, q, id).exitCode);
    EntryStays(steps, p, q - 1, id);
    EntryStep(steps, q - 1, id);
    if CodeStored(steps, q - 1, id) {
      assert !Shows(steps, q, id, running, EntryAt(steps, q, id).exitCode);
      FlagChanges(steps, p, q - 1, id);
    } else {
      UnseenMeansStores(steps, p, q - 1, id);
    }
  }

  /** Step m does not bring about that flag and that exit code together. */
  ghost predicate Misses(steps: seq<Step>, m: nat, id: int, running: bool, code: int)
    requires ValidRun(steps) && m < |steps| && InTable(steps, m, id)
  {
    && (StoresFlag(AfterFirst(steps, m), steps[m], id, running) ==> EntryAt(steps, m, id).exitCode != code)
    && (StoresCode(AfterFirst(steps, m), steps[m], id, code) ==> EntryAt(steps, m, id).isRunning != running)
  }

  ghost predicate AllMiss(steps: seq<Step>, p: nat, q: nat, id: int, running: bool, code: int)
    requires ValidRun(steps) && q <= |steps|
  {
    forall m: nat :: p <= m < q ==> InTable(steps, m, id) && Misses(steps, m, id, running, code)
  }

  lemma MissedStep(steps: seq<Step>, m: nat, id: int, running: bool, code: int)
    requires ValidRun(steps) && m < |steps| && InTable(steps, m, id) && code in {0, -1}
    requires !Shows(steps, m, id, running, code)
    ensures Shows(steps, m + 1, id, running, code) <==> !Misses(steps, m, id, running, code)
  {
    EntryStep(steps, m, id);
  }

  lemma {:induction false} UnseenExactly(steps: seq<Step>, p: nat, q: nat, id: int, running: bool, code: int)
    requires ValidRun(steps) && p <= q <= |steps| && InTable(steps, p, id) && code in {0, -1}
    requires !Shows(steps, p, id, running, code)
    ensures NeverShows(steps, p, q, id, running, code) <==> AllMiss(steps, p, q, id, running, code)
  {
    if p < q {
      UnseenExactly(steps, p, q - 1, id, running, code);
      EntryStays(steps, p, q - 1, id);
      if !Shows(steps, q - 1, id, running, code) {
        MissedStep(steps, q - 1, id, running, code);
      }
    }
  }

  /** The answer is the entry after the first m steps. */
  ghost predicate IsEntryAt(steps: seq<Step>, info: ProcessInfo, id: int, m: nat)
    requires ValidRun(steps)
  {
    InTable(steps, m, id) && EntryAt(steps, m, id) == info
  }

  /** The answer is the entry at no moment from its query's first read to its second. */
  ghost predicate Torn(steps: seq<Step>, info: ProcessInfo, id: int, p: nat, q: nat)
    requires ValidRun(steps)
  {
    forall m: nat :: p <= m <= q ==> !IsEntryAt(steps, info, id, m)
  }

  lemma EntryIsShown(steps: seq<Step>, info: ProcessInfo, id: int, p: nat, q: nat, m: nat)
    requires ValidRun(steps) && IsMix(steps, info, id, p, q) && p <= q && p <= m <= |steps|
    ensures IsEntryAt(steps, info, id, m) <==> Shows(steps, m, id, info.isRunning, info.exitCode)
  {
    EntryStays(steps, p, m, id);
    EntryStays(steps, p, q, id);
  }

  lemma TornIsUnseen(steps: seq<Step>, info: ProcessInfo, id: int, p: nat, q: nat)
    requires ValidRun(steps) && IsMix(steps, info, id, p, q) && p <= q <= |steps|
    ensures Torn(steps, info, id, p, q) <==> NeverShows(steps, p, q, id, info.isRunning, info.exitCode)
  {
    forall m: nat | p <= m <= q
      ensures IsEntryAt(steps, info, id, m) <==> Shows(steps, m, id, info.isRunning, info.exitCode)
    {
      EntryIsShown(steps, info, id, p, q, m);
    }
  }

  /** The answer is the entry at the first read exactly if the exit code is the same at both reads,
      and the entry at the second read exactly if the flag is. */
  lemma AnswerIsSnapshot(steps: seq<Step>, i: nat, info: ProcessInfo, id: int, p: nat, q: nat)
    requires ValidRun(steps) && IsAnswer(steps, i, info) && Reads(steps, i, id, p, q)
    ensures InTable(steps, p, id) && InTable(steps, q, id)
    ensures IsEntryAt(steps, info, id, p) <==> EntryAt(steps, p, id).exitCode == EntryAt(steps, q, id).exitCode
    ensures IsEntryAt(steps, info, id, q) <==> EntryAt(steps, p, id).isRunning == EntryAt(steps, q, id).isRunning
  {
    AnswerIsMix(steps, i, info, id, p, q);
    EntryIsShown(steps, info, id, p, q, p);
  }

  /** A torn answer takes two stores between the reads: one of the flag, then one of the exit code. */
  lemma TornMeansStores(steps: seq<Step>, i: nat, info: ProcessInfo, id: int, p: nat, q: nat)
    requires ValidRun(steps) && IsAnswer(steps, i, info) && Reads(steps, i, id, p, q)
    requires Torn(steps, info, id, p, q)
    ensures BothStored(steps, p, q, id)
  {
    AnswerIsMix(steps, i, info, id, p, q);
    TornIsUnseen(steps, info, id, p, q);
    UnseenMeansStores(steps, p, q, id);
  }

  /** Exactly when an answer is torn: the exit code it gives is not there at the first read, and no
      store between the reads, of the flag or of the exit code, meets the other half of the answer. */
  lemma TornExactly(steps: seq<Step>, i: nat, info: ProcessInfo, id: int, p: nat, q: nat)
    requires ValidRun(steps) && IsAnswer(steps, i, info) && Reads(steps, i, id, p, q)
    ensures InTable(steps, p, id)
    ensures Torn(steps, info, id, p, q) <==>
      && EntryAt(steps, p, id).exitCode != info.exitCode
      && AllMiss(steps, p, q, id, info.isRunning, info.exitCode)
  {
    AnswerIsMix(steps, i, info, id, p, q);
    TornIsUnseen(steps, info, id, p, q);
    NextState(steps, q);
    assert EntryOk(AfterFirst(steps, q), id);
    if EntryAt(steps, p, id).exitCode == info.exitCode {
      assert Shows(steps, p, id, info.isRunning, info.exitCode);
    } else {
      UnseenExactly(steps, p, q, id, info.isRunning, info.exitCode);
    }
  }

  /** What a caller can rely on: if no completion and no terminateProcess of the process stores an
      exit code between the two reads, the answer is the entry at the first read. */
  lemma UndisturbedQuery(steps: seq<Step>, i: nat, info: ProcessInfo, id: int, p: nat, q: nat)
    requires ValidRun(steps) && IsAnswer(steps, i, info) && Reads(steps, i, id, p, q)
    requires forall b: nat :: p <= b < q ==> !CodeStored(steps, b, id)
    ensures IsEntryAt(steps, info, id, p)
  {
    AnswerIsSnapshot(steps, i, info, id, p, q);
    if EntryAt(steps, p, id).exitCode != EntryAt(steps, q, id).exitCode {
      CodeChanges(steps, p, q, id);
    }
  }

  // ---------------------------------------------------------------------------------------------
  // A schedule: a query that overlaps with a terminateProcess

  lemma QuerySeesLsRunning()
    ensures Reached(Scene(true, 0, [OVER, OVER, Sleeping(1001), TerminateStop(1001), InfoRead(1001, true)]))
  {
    TerminateSeesLsRunning();
    var a := [OVER, OVER, Sleeping(1001), TerminateStop(1001), InfoCall(1001)];
    var b := [OVER, OVER, Sleeping(1001), TerminateStop(1001), InfoFound(1001)];
    var c := [OVER, OVER, Sleeping(1001), TerminateStop(1001), InfoRead(1001, true)];
    Begin(true, 0, [OVER, OVER, Sleeping(1001), TerminateStop(1001)], InfoCall(1001));
    Move(true, 0, a, 4, InfoFound(1001), true, 0, b);
    Move(true, 0, b, 4, InfoRead(1001, true), true, 0, c);
  }

  const TORN_INFO := ProcessInfo(1001, "ls", true, -1)

  const TORN := Answered(TORN_INFO)

  lemma TerminateStopsLs()
    ensures Reached(Scene(false, -1, [OVER, OVER, Sleeping(1001), OVER, InfoRead(1001, true)]))
  {
    QuerySeesLsRunning();
    LsWrites(true, 0, false, 0);
    LsWrites(false, 0, false, -1);
    var a := [OVER, OVER, Sleeping(1001), TerminateStop(1001), InfoRead(1001, true)];
    var b := [OVER, OVER, Sleeping(1001), TerminateStopped(1001), InfoRead(1001, true)];
    var c := [OVER, OVER, Sleeping(1001), OVER, InfoRead(1001, true)];
    Move(true, 0, a, 3, TerminateStopped(1001), false, 0, b);
    Move(false, 0, b, 3, OVER, false, -1, c);
  }

  lemma QueryAnswers()
    ensures Reached(Scene(false, -1, [OVER, OVER, Sleeping(1001), OVER, TORN]))
  {
    TerminateStopsLs();
    var a := [OVER, OVER, Sleeping(1001), OVER, InfoRead(1001, true)];
    Move(false, -1, a, 4, TORN, false, -1, [OVER, OVER, Sleeping(1001), OVER, TORN]);
  }

  /** A query can answer what no moment of the run shows: running, with exit code -1. */
  lemma TornRead()
    ensures exists steps :: ValidRun(steps) && AlwaysApart(steps) && TORN in After(steps).tasks
  {
    QueryAnswers();
    var tasks := [OVER, OVER, Sleeping(1001), OVER, TORN];
    var steps :| ValidRun(steps) && After(steps) == Scene(false, -1, tasks) && AlwaysApart(steps);
    assert tasks[4] == TORN;
    assert TORN in After(steps).tasks;
  }

  lemma {:induction false} ApartAt(steps: seq<Step>, m: nat)
    requires ValidRun(steps) && AlwaysApart(steps) && m <= |steps|
    ensures Apart(AfterFirst(steps, m))
    decreases |steps|
  {
    if m < |steps| {
      ApartAt(steps[..|steps| - 1], m);
    }
  }

  ghost predicate HasTornAnswer(steps: seq<Step>)
    requires ValidRun(steps)
  {
    exists i: nat, p: nat, q: nat ::
      IsAnswer(steps, i, TORN_INFO) && Reads(steps, i, 1001, p, q) && Torn(steps, TORN_INFO, 1001, p, q)
  }

  /** So that answers can indeed be torn. */
  lemma TornAnswerExists()
    ensures exists steps :: ValidRun(steps) && HasTornAnswer(steps)
  {
    TornRead();
    var steps :| ValidRun(steps) && AlwaysApart(steps) && TORN in After(steps).tasks;
    var i: nat :| i < |After(steps).tasks| && After(steps).tasks[i] == TORN;
    assert IsAnswer(steps, i, TORN_INFO);
    AnswerHasReads(steps, i, TORN_INFO);
    var p: nat, q: nat :| Reads(steps, i, 1001, p, q);
    forall m: nat | p <= m <= q
      ensures !IsEntryAt(steps, TORN_INFO, 1001, m)
    {
      ApartAt(steps, m);
    }
    assert Torn(steps, TORN_INFO, 1001, p, q);
    assert HasTornAnswer(steps);
  }
}
